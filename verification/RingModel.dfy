/** The power-of-two ring buffer on values, and its meaning: a bounded first-in first-out queue of
    equally long elements.
 */
module RingModel {
  import opened Ticks
  import opened BitMask

  type Bytes = seq<bv8>

  /** `head` and `tail` run freely and wrap at 2^32; `count` is kept beside them. */
  datatype Ring = Ring(sElem: nat, nElem: nat, bytes: Bytes, head: nat, tail: nat, count: nat)

  predicate Full(r: Ring) {
    Minus(r.head, r.tail) == r.nElem
  }

  predicate Empty(r: Ring) {
    Minus(r.head, r.tail) == 0
  }

  /** What initialisation accepts. The mask test lets zero elements pass. */
  predicate Accepts(sElem: nat, nElem: nat) {
    sElem > 0 && And(Minus(nElem, 1), nElem) == 0
  }

  /** The cell that a free-running index names. */
  function Slot(r: Ring, x: nat): nat {
    And(x, Minus(r.nElem, 1))
  }

  /** The counters agree, and the memory has room for every element. */
  ghost predicate Ok(r: Ring) {
    && r.head < WRAP && r.tail < WRAP
    && r.count == Minus(r.head, r.tail) <= r.nElem
    && (r.nElem != 0 ==> PowerOfTwo(r.nElem) && r.nElem < WRAP && r.sElem > 0 && r.nElem * r.sElem <= |r.bytes|)
  }

  /** `data` written over the memory from byte `at` on. */
  function Write(bytes: Bytes, at: nat, data: Bytes): (b: Bytes)
    requires at + |data| <= |bytes|
    ensures |b| == |bytes| && b[at..at + |data|] == data
    ensures forall i :: 0 <= i < |bytes| && !(at <= i < at + |data|) ==> b[i] == bytes[i]
  {
    bytes[..at] + data + bytes[at + |data|..]
  }

  /** Index `x` names a cell of the memory. */
  lemma SlotInRange(r: Ring, x: nat)
    requires Ok(r) && r.nElem != 0
    ensures Slot(r, x) == x % r.nElem && Slot(r, x) * r.sElem + r.sElem <= r.nElem * r.sElem <= |r.bytes|
  {
    hide And, PowerOfTwo, Minus;
    MaskOf(r.nElem);
    MaskIsMod(x, r.nElem);
    CellsFit(Slot(r, x), r.nElem, r.sElem);
  }

  lemma MaskOf(n: nat)
    requires 0 < n < WRAP
    ensures Minus(n, 1) == n - 1
  {
  }

  lemma Distribute(a: nat, b: nat, s: nat)
    ensures a * s + b * s == (a + b) * s
  {
  }

  lemma CellsFit(i: nat, j: nat, s: nat)
    requires i < j
    ensures i * s + s <= j * s
  {
    Distribute(i, j - i, s);
    if s > 0 {
      Times(s, j - i);
    }
  }

  function Cell(r: Ring, x: nat): (c: Bytes)
    requires Ok(r) && r.nElem != 0
    ensures |c| == r.sElem
  {
    SlotInRange(r, x);
    r.bytes[Slot(r, x) * r.sElem..Slot(r, x) * r.sElem + r.sElem]
  }

  /** The free-running index of the element at position `i` of the queue. */
  function Index(r: Ring, i: nat): nat {
    (r.tail + i) % WRAP
  }

  /** The queue: the cells from `tail` on. */
  function Contents(r: Ring): (q: seq<Bytes>)
    requires Ok(r)
    ensures |q| == r.count
  {
    seq(r.count, i requires 0 <= i < r.count => Cell(r, Index(r, i)))
  }

  function Put(r: Ring, data: Bytes): (bool, Ring)
    requires Ok(r) && (r.nElem != 0 ==> |data| == r.sElem)
  {
    if Full(r) then (false, r) else
      SlotInRange(r, r.head);
      (true, r.(bytes := Write(r.bytes, Slot(r, r.head) * r.sElem, data),
                head := (r.head + 1) % WRAP, count := (r.count + 1) % WRAP))
  }

  /** The element is meaningless if the buffer is empty. */
  function Get(r: Ring): (bool, Bytes, Ring)
    requires Ok(r)
  {
    if Empty(r) then (false, [], r) else
      (true, Cell(r, r.tail), r.(tail := (r.tail + 1) % WRAP, count := Minus(r.count, 1)))
  }

  // ----- Refinement of a bounded queue ---------------------------------------------------------

  lemma WrapDivides(n: nat) returns (q: nat)
    requires PowerOfTwo(n) && n <= WRAP
    ensures WRAP == n * q
  {
    assert PowerOfTwo(WRAP) by {
      WrapIsPower();
    }
    q := SmallerDivides(WRAP, n);
  }

  lemma WrapIsPower()
    ensures PowerOfTwo(WRAP)
  {
    assert PowerOfTwo(0x1);
    assert PowerOfTwo(0x100);
    assert PowerOfTwo(0x1_0000);
    assert PowerOfTwo(0x100_0000);
  }

  /** Wrapping does not move the cell of an index. */
  lemma SlotOfWrapped(r: Ring, x: nat)
    requires Ok(r) && r.nElem != 0
    ensures Slot(r, x % WRAP) == x % r.nElem
  {
    SlotInRange(r, x % WRAP);
    var q := WrapDivides(r.nElem);
    ModOfMod(x, WRAP, r.nElem, q);
  }

  /** The head is where the element behind the last one goes. */
  lemma HeadFollows(r: Ring)
    requires Ok(r)
    ensures r.head == Index(r, r.count)
  {
    ModShift(r.tail + r.count, r.head, (r.tail + r.count - r.head) / WRAP) by {
      assert (r.head - r.tail) % WRAP == r.count;
    }
  }

  lemma CounterStep(head: nat, tail: nat, k: nat)
    requires head < WRAP && tail < WRAP
    ensures Minus((head + k) % WRAP, tail) == (Minus(head, tail) + k) % WRAP
  {
  }

  /** Elements of the queue do not share a cell with the next free one. */
  lemma CellsApart(r: Ring, i: nat, j: nat)
    requires Ok(r) && i < j < r.nElem
    ensures Slot(r, Index(r, i)) != Slot(r, Index(r, j))
  {
    SlotOfWrapped(r, r.tail + i);
    SlotOfWrapped(r, r.tail + j);
    ModDiffers(r.tail + i, r.tail + j, r.nElem);
  }

  /** Writing one cell leaves the others. */
  lemma OtherCellStays(r: Ring, r': Ring, x: nat, y: nat, data: Bytes)
    requires Ok(r) && Ok(r') && r.nElem != 0 && r'.nElem == r.nElem && r'.sElem == r.sElem == |data|
    requires Slot(r, x) * r.sElem + r.sElem <= |r.bytes| && r'.bytes == Write(r.bytes, Slot(r, x) * r.sElem, data)
    ensures Slot(r, x) != Slot(r, y) ==> Cell(r', y) == Cell(r, y)
    ensures Slot(r, x) == Slot(r, y) ==> Cell(r', y) == data
  {
    hide Slot, And, PowerOfTwo, Minus;
    var a, b := Slot(r, x), Slot(r, y);
    SlotInRange(r, y);
    SameSlot(r, r', y);
    if a < b {
      CellsFit(a, b, r.sElem);
    } else if b < a {
      CellsFit(b, a, r.sElem);
    }
  }

  lemma PutKeepsOk(r: Ring, data: Bytes)
    requires Ok(r) && !Full(r) && (r.nElem != 0 ==> |data| == r.sElem)
    ensures var r' := Put(r, data).1;
      Ok(r') && r'.count == r.count + 1 && r.count < r.nElem
  {
    hide Slot, PowerOfTwo, And, Write, Minus;
    SlotInRange(r, r.head);
    CounterStep(r.head, r.tail, 1);
  }

  /** Putting refines the append of a bounded queue, whatever the counters have wrapped to. */
  lemma PutRefines(r: Ring, data: Bytes)
    requires Ok(r) && (r.nElem != 0 ==> |data| == r.sElem)
    ensures var (ok, r') := Put(r, data);
      && Ok(r') && r'.nElem == r.nElem && r'.sElem == r.sElem
      && ok == (|Contents(r)| < r.nElem)
      && Contents(r') == if ok then Contents(r) + [data] else Contents(r)
  {
    if !Full(r) {
      PutAppends(r, data);
    }
  }

  lemma PutAppends(r: Ring, data: Bytes)
    requires Ok(r) && !Full(r) && (r.nElem != 0 ==> |data| == r.sElem)
    ensures var r' := Put(r, data).1;
      Ok(r') && r.count < r.nElem && Contents(r') == Contents(r) + [data]
  {
    hide Ok, Index, Slot, Cell;
    var r' := Put(r, data).1;
    PutKeepsOk(r, data);
    SlotInRange(r, r.head);
    HeadFollows(r);
    forall i | 0 <= i < r.count
      ensures Cell(r', Index(r', i)) == Cell(r, Index(r, i))
    {
      CellsApart(r, i, r.count);
      OtherCellStays(r, r', r.head, Index(r, i), data);
      SameIndex(r, r', i);
    }
    OtherCellStays(r, r', r.head, r.head, data);
    SameIndex(r, r', r.count);
  }

  lemma SameIndex(r: Ring, r': Ring, i: nat)
    requires r'.tail == r.tail
    ensures Index(r', i) == Index(r, i)
  {
  }

  lemma GetKeepsOk(r: Ring)
    requires Ok(r) && !Empty(r)
    ensures var r' := Get(r).2; Ok(r') && r'.count == r.count - 1
  {
    CounterBack(r.head, r.tail);
  }

  lemma CounterBack(head: nat, tail: nat)
    requires head < WRAP && tail < WRAP && Minus(head, tail) > 0
    ensures Minus(head, (tail + 1) % WRAP) == Minus(head, tail) - 1 == Minus(Minus(head, tail), 1)
  {
    var k := (head - tail) / WRAP;
    var l := (tail + 1) / WRAP;
    ModUnique(head - (tail + 1) % WRAP, WRAP, k + l, Minus(head, tail) - 1);
  }

  lemma NextIndex(r: Ring, r': Ring, i: nat)
    requires r'.tail == (r.tail + 1) % WRAP
    ensures Index(r', i) == Index(r, i + 1)
  {
    ModShift(r.tail + 1 + i, r'.tail + i, (r.tail + 1) / WRAP);
  }

  /** Getting refines taking the first element. */
  lemma GetRefines(r: Ring)
    requires Ok(r)
    ensures var (ok, data, r') := Get(r);
      && Ok(r') && r'.nElem == r.nElem && r'.sElem == r.sElem
      && ok == (Contents(r) != [])
      && (ok ==> data == Contents(r)[0] && Contents(r') == Contents(r)[1..])
      && (!ok ==> r' == r)
  {
    if !Empty(r) {
      GetTakes(r);
    }
  }

  lemma GetTakes(r: Ring)
    requires Ok(r) && !Empty(r)
    ensures var r' := Get(r).2;
      Ok(r') && r.count > 0 && Get(r).1 == Contents(r)[0] && Contents(r') == Contents(r)[1..]
  {
    hide Slot, And, PowerOfTwo, Minus;
    var r' := Get(r).2;
    GetKeepsOk(r);
    SameBytes(r, r');
    forall i | 0 <= i < r.count - 1
      ensures Index(r', i) == Index(r, i + 1)
    {
      NextIndex(r, r', i);
    }
  }

  lemma SameBytes(r: Ring, r': Ring)
    requires Ok(r) && Ok(r') && r.nElem != 0 && r' == r.(tail := r'.tail, count := r'.count)
    ensures forall x :: Cell(r', x) == Cell(r, x)
  {
  }

  // ----- Initialisation ------------------------------------------------------------------------

  /** Initialisation accepts exactly the powers of two, and zero. */
  lemma AcceptsPowers(sElem: nat, nElem: nat)
    requires nElem < WRAP
    ensures Accepts(sElem, nElem) <==> sElem > 0 && (nElem == 0 || PowerOfTwo(nElem))
  {
    if nElem > 0 {
      TestFindsPowers(nElem);
    }
  }

  /** A ring that has just been set up is in order and empty. */
  lemma AcceptedIsOk(sElem: nat, nElem: nat, bytes: Bytes)
    requires nElem < WRAP && nElem * sElem <= |bytes|
    ensures Accepts(sElem, nElem) ==>
      Ok(Ring(sElem, nElem, bytes, 0, 0, 0)) && Contents(Ring(sElem, nElem, bytes, 0, 0, 0)) == []
  {
    AcceptsPowers(sElem, nElem);
  }

  /** A ring of no elements, set up or not, refuses every element and yields none. */
  lemma NothingFits(r: Ring, data: Bytes)
    requires Ok(r) && r.nElem == 0
    ensures Put(r, data) == (false, r) && Get(r) == (false, [], r)
  {
  }

  // ----- Runs ----------------------------------------------------------------------------------

  datatype Op = PutOp(data: Bytes) | GetOp

  datatype Reply = Reply(ok: bool, data: Bytes)

  predicate Sized(r: Ring, ops: seq<Op>) {
    forall k :: 0 <= k < |ops| && ops[k].PutOp? ==> |ops[k].data| == r.sElem
  }

  /** What a bounded queue does. */
  function QueueStep(bound: nat, q: seq<Bytes>, op: Op): (seq<Bytes>, Reply) {
    match op
    case PutOp(data) => if |q| < bound then (q + [data], Reply(true, [])) else (q, Reply(false, []))
    case GetOp => if q != [] then (q[1..], Reply(true, q[0])) else (q, Reply(false, []))
  }

  function QueueRun(bound: nat, q: seq<Bytes>, ops: seq<Op>): (seq<Bytes>, seq<Reply>)
    decreases |ops|
  {
    if ops == [] then (q, []) else
      var (q1, reply) := QueueStep(bound, q, ops[0]);
      var (q2, replies) := QueueRun(bound, q1, ops[1..]);
      (q2, [reply] + replies)
  }

  function RingStep(r: Ring, op: Op): (Ring, Reply)
    requires Ok(r) && (op.PutOp? ==> |op.data| == r.sElem)
  {
    match op
    case PutOp(data) => var (ok, r') := Put(r, data); (r', Reply(ok, []))
    case GetOp => var (ok, data, r') := Get(r); (r', Reply(ok, data))
  }

  lemma StepRefines(r: Ring, op: Op)
    requires Ok(r) && (op.PutOp? ==> |op.data| == r.sElem)
    ensures var (r', reply) := RingStep(r, op);
      && Ok(r') && r'.nElem == r.nElem && r'.sElem == r.sElem
      && (Contents(r'), reply) == QueueStep(r.nElem, Contents(r), op)
  {
    match op
    case PutOp(data) => PutRefines(r, data);
    case GetOp => GetRefines(r);
  }

  function RingRun(r: Ring, ops: seq<Op>): (Ring, seq<Reply>)
    requires Ok(r) && Sized(r, ops)
    decreases |ops|
  {
    if ops == [] then (r, []) else
      assert ops[0].PutOp? ==> |ops[0].data| == r.sElem;
      StepRefines(r, ops[0]);
      var (r1, reply) := RingStep(r, ops[0]);
      var (r2, replies) := RingRun(r1, ops[1..]);
      (r2, [reply] + replies)
  }

  /** Over every run of puts and gets the ring buffer gives the replies of a queue bounded by
      `nElem`, and holds what the queue holds, also when its counters wrap on the way. */
  lemma {:induction false} RunRefines(r: Ring, ops: seq<Op>)
    requires Ok(r) && Sized(r, ops)
    ensures var (r', replies) := RingRun(r, ops);
      && Ok(r') && r'.nElem == r.nElem
      && (Contents(r'), replies) == QueueRun(r.nElem, Contents(r), ops)
    decreases |ops|
  {
    if ops == [] {
    } else {
      assert ops[0].PutOp? ==> |ops[0].data| == r.sElem;
      StepRefines(r, ops[0]);
      RunRefines(RingStep(r, ops[0]).0, ops[1..]);
    }
  }

  // ----- Many elements at once -----------------------------------------------------------------

  function Flat(blocks: seq<Bytes>): Bytes {
    if blocks == [] then [] else Flat(blocks[..|blocks| - 1]) + blocks[|blocks| - 1]
  }

  predicate Blocks(r: Ring, blocks: seq<Bytes>) {
    forall k :: 0 <= k < |blocks| ==> |blocks[k]| == r.sElem
  }

  lemma {:induction false} FlatLength(r: Ring, blocks: seq<Bytes>)
    requires Blocks(r, blocks)
    ensures |Flat(blocks)| == |blocks| * r.sElem
  {
    if blocks == [] {
    } else {
      FlatLength(r, blocks[..|blocks| - 1]);
      Distribute(|blocks| - 1, 1, r.sElem);
    }
  }

  /** Strictly more room is wanted than the block needs. */
  predicate TakesMany(r: Ring, n: nat) {
    !Full(r) && Minus(r.nElem, r.count) > n
  }

  /** One element always stays free. */
  lemma TakesExactly(r: Ring, n: nat)
    requires Ok(r)
    ensures |Contents(r)| == r.count
    ensures TakesMany(r, n) <==> |Contents(r)| + n < r.nElem
  {
    hide And, PowerOfTwo, Slot;
  }

  /** One copy from the head on, however far it reaches. */
  function PutMany(r: Ring, data: Bytes, n: nat): (bool, Ring)
    requires TakesMany(r, n) ==> Slot(r, r.head) * r.sElem + |data| <= |r.bytes|
  {
    if !TakesMany(r, n) then (false, r) else
      (true, r.(bytes := Write(r.bytes, Slot(r, r.head) * r.sElem, data),
                head := (r.head + n) % WRAP, count := (r.count + n) % WRAP))
  }

  /** One element after the other. */
  function PutEach(r: Ring, blocks: seq<Bytes>): (r': Ring)
    requires Ok(r) && Blocks(r, blocks)
    ensures Ok(r') && r'.nElem == r.nElem && r'.sElem == r.sElem
  {
    if blocks == [] then r else
      var before := PutEach(r, blocks[..|blocks| - 1]);
      PutRefines(before, blocks[|blocks| - 1]);
      Put(before, blocks[|blocks| - 1]).1
  }

  lemma {:induction false} PutEachAppends(r: Ring, blocks: seq<Bytes>)
    requires Ok(r) && Blocks(r, blocks) && r.count + |blocks| <= r.nElem
    ensures Contents(PutEach(r, blocks)) == Contents(r) + blocks
  {
    if blocks == [] {
    } else {
      var rest := blocks[..|blocks| - 1];
      PutEachAppends(r, rest);
      PutRefines(PutEach(r, rest), blocks[|blocks| - 1]);
      assert blocks == rest + [blocks[|blocks| - 1]];
    }
  }

  /** The head of a run of cells that does not reach the end of the memory. */
  lemma SlotAhead(r: Ring, k: nat)
    requires Ok(r) && r.nElem != 0 && Slot(r, r.head) + k < r.nElem
    ensures Slot(r, (r.head + k) % WRAP) == Slot(r, r.head) + k
  {
    hide And, PowerOfTwo, Slot, Minus;
    SlotOfWrapped(r, r.head + k);
    SlotInRange(r, r.head);
    ModUnique(r.head + k, r.nElem, r.head / r.nElem, Slot(r, r.head) + k);
  }

  lemma WriteTwice(bytes: Bytes, at: nat, a: Bytes, b: Bytes)
    requires at + |a| + |b| <= |bytes|
    ensures Write(Write(bytes, at, a), at + |a|, b) == Write(bytes, at, a + b)
  {
  }

  /** As long as the block ends before the end of the memory, one copy does what the puts would have
      done one by one, byte for byte. */
  lemma {:induction false} PutManyIsPuts(r: Ring, blocks: seq<Bytes>)
    requires Ok(r) && Blocks(r, blocks) && TakesMany(r, |blocks|)
    requires Slot(r, r.head) + |blocks| <= r.nElem
    ensures Slot(r, r.head) * r.sElem + |Flat(blocks)| <= |r.bytes|
    ensures PutEach(r, blocks) == PutMany(r, Flat(blocks), |blocks|).1
  {
    hide And, PowerOfTwo, Slot, Minus, Put;
    SlotInRange(r, r.head);
    FlatLength(r, blocks);
    BlockFits(r, |blocks|);
    if blocks == [] {
      assert Write(r.bytes, Slot(r, r.head) * r.sElem, []) == r.bytes;
    } else {
      var rest, last := blocks[..|blocks| - 1], blocks[|blocks| - 1];
      PutManyIsPuts(r, rest);
      FlatLength(r, rest);
      PutAfterMany(r, rest, last);
    }
  }

  lemma BlockFits(r: Ring, k: nat)
    requires Ok(r) && r.nElem != 0 && Slot(r, r.head) + k <= r.nElem
    ensures Slot(r, r.head) * r.sElem + k * r.sElem <= |r.bytes|
  {
    hide And, PowerOfTwo, Slot, Minus;
    var at := Slot(r, r.head);
    Distribute(at, k, r.sElem);
    if at + k < r.nElem {
      CellsFit(at + k, r.nElem, r.sElem);
    }
  }

  /** One more put behind a block. */
  lemma PutAfterMany(r: Ring, rest: seq<Bytes>, last: Bytes)
    requires Ok(r) && Blocks(r, rest) && |last| == r.sElem && TakesMany(r, |rest| + 1)
    requires Slot(r, r.head) + |rest| + 1 <= r.nElem
    requires |Flat(rest)| == |rest| * r.sElem && Slot(r, r.head) * r.sElem + |Flat(rest)| + |last| <= |r.bytes|
    requires PutMany(r, Flat(rest), |rest|).1 == PutEach(r, rest)
    ensures Put(PutEach(r, rest), last).1 == PutMany(r, Flat(rest) + last, |rest| + 1).1
  {
    hide And, PowerOfTwo, Slot, Ok, Minus, PutEach, Write, Put, Flat;
    var mid, k, at := PutEach(r, rest), |rest|, Slot(r, r.head);
    PutEachCounts(r, rest);
    SlotAhead(r, k);
    SameSlot(r, mid, mid.head);
    Distribute(at, k, r.sElem);
    PutBehind(r, mid, Flat(rest), k, last);
  }

  lemma PutBehind(r: Ring, mid: Ring, data: Bytes, k: nat, last: Bytes)
    requires TakesMany(r, k) && TakesMany(r, k + 1) && Slot(r, r.head) * r.sElem + |data| + |last| <= |r.bytes|
    requires mid == PutMany(r, data, k).1
    requires Ok(mid) && mid.nElem != 0 && |last| == mid.sElem && !Full(mid)
    requires Slot(mid, mid.head) * mid.sElem == Slot(r, r.head) * r.sElem + |data|
    ensures Put(mid, last).1 == PutMany(r, data + last, k + 1).1
  {
    hide And, PowerOfTwo, Slot, Ok, Minus, Write, TakesMany, Full;
    SlotInRange(mid, mid.head);
    WriteTwice(r.bytes, Slot(r, r.head) * r.sElem, data, last);
    WrapOneMore(r.head, k);
    WrapOneMore(r.count, k);
  }

  lemma SameSlot(r: Ring, r': Ring, x: nat)
    requires r'.nElem == r.nElem
    ensures Slot(r', x) == Slot(r, x)
  {
  }

  lemma WrapOneMore(x: nat, k: nat)
    ensures ((x + k) % WRAP + 1) % WRAP == (x + k + 1) % WRAP
  {
    ModShift(x + k + 1, (x + k) % WRAP + 1, (x + k) / WRAP);
  }

  lemma ManyAppends(r: Ring, blocks: seq<Bytes>)
    requires Ok(r) && Blocks(r, blocks)
    ensures TakesMany(r, |blocks|) ==> Contents(PutEach(r, blocks)) == Contents(r) + blocks
  {
    if TakesMany(r, |blocks|) {
      PutEachAppends(r, blocks);
    }
  }

  lemma PutEachCounts(r: Ring, blocks: seq<Bytes>)
    requires Ok(r) && Blocks(r, blocks) && TakesMany(r, |blocks|)
    ensures PutEach(r, blocks).count == r.count + |blocks| < r.nElem && !Full(PutEach(r, blocks))
  {
    hide And, PowerOfTwo, Slot, PutEach;
    RoomLeft(r, |blocks|);
    PutEachAppends(r, blocks);
  }

  /** The block is in the queue, in order, behind what was there. */
  ghost predicate Delivered(r: Ring, blocks: seq<Bytes>)
    requires Ok(r) && TakesMany(r, |blocks|) && Slot(r, r.head) * r.sElem + |Flat(blocks)| <= |r.bytes|
  {
    var r' := PutMany(r, Flat(blocks), |blocks|).1;
    Ok(r') && Contents(r') == Contents(r) + blocks
  }

  lemma ManyKeepsOk(r: Ring, data: Bytes, k: nat)
    requires Ok(r) && TakesMany(r, k) && Slot(r, r.head) * r.sElem + |data| <= |r.bytes|
    ensures var r' := PutMany(r, data, k).1; Ok(r') && r'.count == r.count + k < r.nElem
  {
    hide And, PowerOfTwo, Slot, Minus, TakesMany, Write;
    RoomLeft(r, k);
    CounterStep(r.head, r.tail, k);
  }

  lemma RoomLeft(r: Ring, k: nat)
    requires Ok(r) && TakesMany(r, k)
    ensures r.nElem != 0 && r.count + k < r.nElem
  {
  }

  /** The last element of a block that runs past the end belongs in a cell at its start. */
  lemma WrappedSlot(r: Ring, k: nat)
    requires Ok(r) && r.nElem != 0 && 0 < k <= r.nElem && Slot(r, r.head) + k > r.nElem
    ensures Slot(r, Index(r, r.count + k - 1)) == Slot(r, r.head) + k - 1 - r.nElem
  {
    hide And, PowerOfTwo, Slot, Minus, Ok;
    HeadFollows(r);
    SlotInRange(r, r.head);
    ModShift(r.tail + r.count + k - 1, r.head + k - 1, (r.tail + r.count) / WRAP);
    SlotOfWrapped(r, r.head + k - 1);
    ModUnique(r.head + k - 1, r.nElem, r.head / r.nElem + 1, Slot(r, r.head) + k - 1 - r.nElem);
  }

  lemma CellBelowStays(r: Ring, r': Ring, at: nat, x: nat, data: Bytes)
    requires Ok(r) && Ok(r') && r.nElem != 0 && r'.nElem == r.nElem && r'.sElem == r.sElem && Slot(r, x) < at
    requires at * r.sElem + |data| <= |r.bytes| && r'.bytes == Write(r.bytes, at * r.sElem, data)
    ensures Cell(r', x) == Cell(r, x)
  {
    hide Slot, And, PowerOfTwo, Minus;
    SlotInRange(r, x);
    SameSlot(r, r', x);
    CellsFit(Slot(r, x), at, r.sElem);
  }

  /** So a block that runs past the end leaves there what was there before. */
  lemma PastTheEnd(r: Ring, data: Bytes, k: nat)
    requires Ok(r) && k > 0 && TakesMany(r, k) && Slot(r, r.head) * r.sElem + |data| <= |r.bytes|
    requires Slot(r, r.head) + k > r.nElem
    ensures r.nElem != 0
    ensures var r' := PutMany(r, data, k).1;
      Ok(r') && |Contents(r')| == r.count + k && Contents(r')[r.count + k - 1] == Cell(r, Index(r, r.count + k - 1))
  {
    hide And, PowerOfTwo, Slot, Minus, Write, Cell;
    var r' := PutMany(r, data, k).1;
    ManyKeepsOk(r, data, k);
    WrappedSlot(r, k);
    CellBelowStays(r, r', Slot(r, r.head), Index(r, r.count + k - 1), data);
    SameIndex(r, r', r.count + k - 1);
  }

  /** A block of `k` elements always gets into the queue as it should exactly when it fits in front of
      the end of the memory. */
  lemma PutManyExact(r: Ring, k: nat)
    requires Ok(r) && TakesMany(r, k) && Slot(r, r.head) * r.sElem + k * r.sElem <= |r.bytes|
    ensures (forall blocks | |blocks| == k && Blocks(r, blocks) ::
              Slot(r, r.head) * r.sElem + |Flat(blocks)| <= |r.bytes| && Delivered(r, blocks))
        <==> Slot(r, r.head) + k <= r.nElem
  {
    hide And, PowerOfTwo, Slot, Minus, Write, Cell, Flat;
    if Slot(r, r.head) + k <= r.nElem {
      forall blocks | |blocks| == k && Blocks(r, blocks)
        ensures Slot(r, r.head) * r.sElem + |Flat(blocks)| <= |r.bytes| && Delivered(r, blocks)
      {
        PutManyIsPuts(r, blocks);
        RoomLeft(r, k);
        PutEachAppends(r, blocks);
      }
    } else {
      var blocks := Spill(r, k);
    }
  }

  /** A block of `k` elements that does not get into the queue as it should. */
  lemma Spill(r: Ring, k: nat) returns (blocks: seq<Bytes>)
    requires Ok(r) && TakesMany(r, k) && Slot(r, r.head) * r.sElem + k * r.sElem <= |r.bytes|
    requires Slot(r, r.head) + k > r.nElem
    ensures |blocks| == k && Blocks(r, blocks)
    ensures Slot(r, r.head) * r.sElem + |Flat(blocks)| <= |r.bytes| && !Delivered(r, blocks)
  {
    hide And, PowerOfTwo, Slot, Minus, Write, Cell, Flat;
    SlotInRange(r, r.head);
    blocks := OtherBlocks(r, k);
    FlatLength(r, blocks);
    PastTheEnd(r, Flat(blocks), k);
  }

  /** `k` elements, none of which is what the last of their cells holds now. */
  lemma OtherBlocks(r: Ring, k: nat) returns (blocks: seq<Bytes>)
    requires Ok(r) && r.nElem != 0 && k > 0
    ensures |blocks| == k && Blocks(r, blocks)
    ensures forall i :: 0 <= i < k ==> blocks[i] != Cell(r, Index(r, r.count + k - 1))
  {
    var c := Cell(r, Index(r, r.count + k - 1));
    var d := [c[0] + 1] + c[1..];
    assert d[0] != c[0];
    blocks := seq(k, i => d);
  }

  /** For example with room for four elements and the head at the last: of a block of two the second is
      not what comes out. */
  lemma SpillExample()
    ensures var r := Ring(1, 4, [0, 0, 0, 0, 0], 3, 3, 0);
      && Ok(r) && TakesMany(r, 2)
      && Slot(r, r.head) * r.sElem + |Flat([[1], [1]])| <= |r.bytes| && !Delivered(r, [[1], [1]])
  {
    var r, blocks: seq<Bytes> := Ring(1, 4, [0, 0, 0, 0, 0], 3, 3, 0), [[1], [1]];
    assert PowerOfTwo(4);
    SlotInRange(r, 3);
    FlatLength(r, blocks);
    PastTheEnd(r, Flat(blocks), 2);
    SlotInRange(r, Index(r, 1));
    assert Cell(r, Index(r, 1)) == [0];
  }
}

/** The static table of ring buffers. Every operation is proved to do on the memory what RingModel
    says it does on values.
 */
module RingBuffer {
  import opened Ticks
  import opened BitMask
  import opened RingModel

  const RING_BUFFER_MAX := 10

  class RingRecord {
    var sElem: nat
    var nElem: nat
    var buf: array?<bv8>
    var count: nat
    var head: nat
    var tail: nat

    /** Static storage starts as zeros. */
    constructor ()
      ensures buf == null && Value() == Ring(0, 0, [], 0, 0, 0)
    {
      sElem, nElem, buf, count, head, tail := 0, 0, null, 0, 0, 0;
    }

    ghost function Value(): Ring
      reads this, buf
    {
      Ring(sElem, nElem, if buf == null then [] else buf[..], head, tail, count)
    }

    ghost predicate Valid()
      reads this, buf
    {
      Ok(Value()) && (nElem != 0 ==> buf != null)
    }

    /** Copies `data` into the memory from byte `offset` on. */
    method CopyTo(offset: nat, data: Bytes)
      requires buf != null && offset + |data| <= buf.Length
      modifies buf
      ensures buf[..] == Write(old(buf[..]), offset, data)
    {
      forall i | 0 <= i < |data| {
        buf[offset + i] := data[i];
      }
    }

    method IsFull() returns (full: bool)
      ensures full == Full(Value())
    {
      full := Minus(head, tail) == nElem;
    }

    method IsEmpty() returns (empty: bool)
      ensures empty == Empty(Value())
    {
      empty := Minus(head, tail) == 0;
    }

    method Store(data: Bytes) returns (ok: bool)
      requires Valid() && (nElem != 0 ==> |data| == sElem)
      modifies this`head, this`count, buf
      ensures Valid() && (ok, Value()) == Put(old(Value()), data)
    {
      hide And, PowerOfTwo, Minus, Write;
      PutRefines(Value(), data);
      var full := IsFull();
      ok := !full;
      if ok {
        SlotInRange(Value(), head);
        CopyTo(And(head, Minus(nElem, 1)) * sElem, data);
        head := (head + 1) % WRAP;
        count := (count + 1) % WRAP;
      }
    }

    method Fetch() returns (ok: bool, data: Bytes)
      requires Valid()
      modifies this`tail, this`count
      ensures Valid() && (ok, data, Value()) == Get(old(Value()))
    {
      hide And, PowerOfTwo, Minus;
      GetRefines(Value());
      var empty := IsEmpty();
      ok, data := !empty, [];
      if ok {
        SlotInRange(Value(), tail);
        var offset := And(tail, Minus(nElem, 1)) * sElem;
        data := buf[offset..offset + sElem];
        tail := (tail + 1) % WRAP;
        count := Minus(count, 1);
      }
    }

    method StoreMany(blocks: seq<Bytes>) returns (ok: bool)
      requires Valid() && Blocks(Value(), blocks)
      requires TakesMany(Value(), |blocks|) ==> Slot(Value(), head) + |blocks| <= nElem
      modifies this`head, this`count, buf
      ensures Valid() && ok == TakesMany(old(Value()), |blocks|)
      ensures Value() == if ok then PutEach(old(Value()), blocks) else old(Value())
    {
      hide And, PowerOfTwo, Minus, Write, Ok, PutEach, Flat;
      var n := |blocks|;
      var full := IsFull();
      ok := !full && Minus(nElem, count) > n;
      if ok {
        RoomLeft(Value(), n);
        PutManyIsPuts(Value(), blocks);
        CopyTo(And(head, Minus(nElem, 1)) * sElem, Flat(blocks));
        head := (head + n) % WRAP;
        count := (count + n) % WRAP;
      }
    }
  }

  class RingTable {
    const rb: seq<RingRecord>
    var idx: nat

    /** The table over its static records, all still zero. */
    constructor (rb: seq<RingRecord>)
      requires |rb| == RING_BUFFER_MAX && (forall j, k :: 0 <= j < k < |rb| ==> rb[j] != rb[k])
      requires forall k :: 0 <= k < |rb| ==> rb[k].buf == null && rb[k].Value() == Ring(0, 0, [], 0, 0, 0)
      ensures this.rb == rb && idx == 0 && Valid()
    {
      this.rb, idx := rb, 0;
    }

    /** Every record is a ring, and no two share their memory. */
    ghost predicate Valid()
      reads this, rb, set k | 0 <= k < |rb| :: rb[k].buf
    {
      && |rb| == RING_BUFFER_MAX && idx <= RING_BUFFER_MAX
      && (forall k :: 0 <= k < |rb| ==> rb[k].Valid())
      && (forall k :: idx <= k < |rb| ==> rb[k].nElem == 0 && rb[k].count == 0)
      && (forall j, k :: 0 <= j < k < |rb| ==> rb[j] != rb[k] && (rb[j].buf == null || rb[j].buf != rb[k].buf))
    }

    /** The queue behind descriptor `rbd`. */
    ghost function Queue(rbd: nat): seq<Bytes>
      requires Valid() && rbd < |rb|
      reads this, rb, set k | 0 <= k < |rb| :: rb[k].buf
    {
      Contents(rb[rbd].Value())
    }

    /** What an operation on `rbd` may change. */
    ghost function Footprint(rbd: nat): set<object?>
      reads this, if rbd < |rb| then {rb[rbd]} else {}
    {
      if rbd < |rb| then {rb[rbd], rb[rbd].buf} else {}
    }

    /** The other rings stay as they are. */
    twostate predicate OthersKept(rbd: nat)
      requires old(Valid())
      reads this, rb, set k | 0 <= k < |rb| :: rb[k].buf
    {
      forall k :: 0 <= k < |rb| && k != rbd ==> rb[k].Value() == old(rb[k].Value())
    }

    /** Sets up the next record. The pointers may be null; the memory is the caller's and has room for
        the elements it announces. */
    method Init(hasDescriptor: bool, hasAttributes: bool, buffer: array?<bv8>, sElem: nat, nElem: nat)
      returns (ok: bool, rbd: nat)
      requires Valid() && nElem < WRAP
      requires buffer != null ==> nElem * sElem <= buffer.Length && forall k :: 0 <= k < |rb| ==> rb[k].buf != buffer
      modifies this`idx, Footprint(idx)
      ensures Valid() && OthersKept(old(idx))
      ensures ok ==
        (old(idx) < 10 && hasDescriptor && hasAttributes && buffer != null && Accepts(sElem, nElem))
      ensures !ok ==> idx == old(idx) && (idx < |rb| ==> rb[idx].Value() == old(rb[idx].Value()))
      ensures ok ==> rbd == old(idx) && idx == rbd + 1 && Queue(rbd) == []
      ensures ok ==> rb[rbd].Value() == Ring(sElem, nElem, buffer[..], 0, 0, 0)
    {
      hide Ok, Contents;
      ok, rbd := false, 0;
      if idx < RING_BUFFER_MAX && hasDescriptor && hasAttributes {
        if buffer != null && sElem > 0 {
          if And(Minus(nElem, 1), nElem) == 0 {
            AcceptedIsOk(sElem, nElem, buffer[..]);
            var r := rb[idx];
            r.head, r.tail := 0, 0;
            r.buf := buffer;
            r.sElem, r.nElem := sElem, nElem;
            r.count := 0;
            rbd := idx;
            idx := idx + 1;
            ok := true;
          }
        }
      }
    }

    /** Puts one element. An index outside the table, a full ring and a record that was never set up
        all refuse it. */
    method PutData(rbd: nat, data: Bytes) returns (ok: bool)
      requires Valid() && (rbd < |rb| && rb[rbd].nElem != 0 ==> |data| == rb[rbd].sElem)
      modifies Footprint(rbd)
      ensures Valid() && OthersKept(rbd) && idx == old(idx) && Footprint(rbd) == old(Footprint(rbd))
      ensures rbd >= |rb| ==> !ok
      ensures rbd < |rb| ==> (ok, rb[rbd].Value()) == Put(old(rb[rbd].Value()), data)
      ensures rbd < |rb| ==> ok == (|old(Queue(rbd))| < rb[rbd].nElem)
      ensures rbd < |rb| ==> Queue(rbd) == if ok then old(Queue(rbd)) + [data] else old(Queue(rbd))
    {
      hide Ok, Put, Contents;
      ok := rbd < RING_BUFFER_MAX;
      if ok {
        PutRefines(rb[rbd].Value(), data);
        ok := rb[rbd].Store(data);
      }
    }

    /** Takes the first element. */
    method GetData(rbd: nat) returns (ok: bool, data: Bytes)
      requires Valid()
      modifies Footprint(rbd)
      ensures Valid() && OthersKept(rbd) && idx == old(idx) && Footprint(rbd) == old(Footprint(rbd))
      ensures rbd >= |rb| ==> !ok
      ensures rbd < |rb| ==> (ok, data, rb[rbd].Value()) == Get(old(rb[rbd].Value()))
      ensures rbd < |rb| ==> ok == (old(Queue(rbd)) != [])
      ensures rbd < |rb| && ok ==> [data] + Queue(rbd) == old(Queue(rbd))
      ensures rbd < |rb| && !ok ==> Queue(rbd) == old(Queue(rbd))
    {
      hide Ok, Get, Contents;
      ok, data := rbd < RING_BUFFER_MAX, [];
      if ok {
        GetRefines(rb[rbd].Value());
        ok, data := rb[rbd].Fetch();
      }
    }

    /** Puts `n` elements in one copy. The caller's block must not run past the memory. */
    method PutMany(rbd: nat, blocks: seq<Bytes>) returns (ok: bool)
      requires Valid() && (rbd < |rb| ==> Blocks(rb[rbd].Value(), blocks))
      requires rbd < |rb| && TakesMany(rb[rbd].Value(), |blocks|) ==>
        Slot(rb[rbd].Value(), rb[rbd].head) + |blocks| <= rb[rbd].nElem
      modifies Footprint(rbd)
      ensures Valid() && OthersKept(rbd) && idx == old(idx) && Footprint(rbd) == old(Footprint(rbd))
      ensures rbd >= |rb| ==> !ok
      ensures rbd < |rb| ==> ok == (|old(Queue(rbd))| + |blocks| < rb[rbd].nElem) && rb[rbd].nElem == old(rb[rbd].nElem)
      ensures rbd < |rb| ==>
        rb[rbd].Value() == if ok then PutEach(old(rb[rbd].Value()), blocks) else old(rb[rbd].Value())
      ensures rbd < |rb| ==> Queue(rbd) == if ok then old(Queue(rbd)) + blocks else old(Queue(rbd))
    {
      hide Ok, Contents, TakesMany, PutEach, Slot;
      ok := rbd < RING_BUFFER_MAX;
      if ok {
        ManyAppends(rb[rbd].Value(), blocks);
        TakesExactly(rb[rbd].Value(), |blocks|);
        ok := rb[rbd].StoreMany(blocks);
      }
    }

    method GetCount(rbd: nat) returns (count: nat)
      requires Valid() && rbd < |rb|
      ensures count == |Queue(rbd)|
    {
      count := rb[rbd].count;
    }
  }
}

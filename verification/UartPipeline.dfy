/** The UART queue on the ring buffer, with its senders and its interrupt. */
module UartPipeline {
  import opened RingModel
  import opened RingBuffer
  import M = UartModel

  /** The words in a queue of two-byte elements. */
  ghost function Words(q: seq<Bytes>): (r: seq<bv16>)
    requires forall k :: 0 <= k < |q| ==> |q[k]| == 2
    ensures |r| == |q|
  {
    seq(|q|, k requires 0 <= k < |q| => M.Decode(q[k]))
  }

  lemma WordsOfAppend(q: seq<Bytes>, w: bv16)
    requires forall k :: 0 <= k < |q| ==> |q[k]| == 2
    ensures Words(q + [M.Encode(w)]) == Words(q) + [w]
  {
    M.EncodeThenDecode(w);
  }

  lemma WordsOfCons(b: Bytes, q: seq<Bytes>)
    requires |b| == 2 && forall k :: 0 <= k < |q| ==> |q[k]| == 2
    ensures Words([b] + q) == [M.Decode(b)] + Words(q)
  {
  }

  /** The events of main code. */
  function Sends(es: seq<M.Event>): seq<M.Event> {
    if es == [] then [] else Sends(es[..|es| - 1]) + if es[|es| - 1].Send? then [es[|es| - 1]] else []
  }

  lemma NoSends()
    ensures Sends([]) == []
  {
  }

  lemma {:induction false} SendsConcat(a: seq<M.Event>, b: seq<M.Event>)
    ensures Sends(a + b) == Sends(a) + Sends(b)
  {
    if b == [] {
      assert a + b == a;
    } else {
      SendsConcat(a, b[..|b| - 1]);
      assert (a + b)[..|a + b| - 1] == a + b[..|b| - 1];
    }
  }

  lemma SendsOneMore(a: seq<M.Event>, e: M.Event)
    ensures Sends(a + [e]) == Sends(a) + if e.Send? then [e] else []
  {
    assert (a + [e])[..|a|] == a;
  }

  const START := M.Line([], false, [])

  /** Ring `rbd` is set up for words. */
  ghost predicate Ready(table: RingTable, rbd: nat)
    reads table, table.rb, set k | 0 <= k < |table.rb| :: table.rb[k].buf
  {
    && table.Valid() && rbd < |table.rb|
    && table.rb[rbd].sElem == 2 && table.rb[rbd].nElem == M.CAPACITY
    && (forall k :: 0 <= k < |table.Queue(rbd)| ==> |table.Queue(rbd)[k]| == 2)
  }

  /** The words in ring `rbd`. */
  ghost function Waiting(table: RingTable, rbd: nat): seq<bv16>
    requires Ready(table, rbd)
    reads table, table.rb, set k | 0 <= k < |table.rb| :: table.rb[k].buf
  {
    Words(table.Queue(rbd))
  }

  class Uart {
    const table: RingTable
    const rbd: nat
    var itrdy: bool
    var tx: bv16
    ghost var sent: seq<bv16>
    ghost var events: seq<M.Event>

    ghost function Line(): M.Line
      requires Ready(table, rbd)
      reads this, table, table.rb, set k | 0 <= k < |table.rb| :: table.rb[k].buf
    {
      M.Line(Waiting(table, rbd), itrdy, sent)
    }

    /** The line is where the events so far have brought it, and the transmit register holds the last word
        that was written to it. */
    ghost predicate Valid()
      reads this, table, table.rb, set k | 0 <= k < |table.rb| :: table.rb[k].buf
    {
      Ready(table, rbd) && Line() == M.Run(START, events) && (sent != [] ==> tx == sent[|sent| - 1])
    }

    constructor (table: RingTable, rbd: nat)
      requires table.Valid() && rbd < |table.rb|
      requires table.rb[rbd].sElem == 2 && table.rb[rbd].nElem == M.CAPACITY && table.Queue(rbd) == []
      ensures Valid() && events == [] && this.table == table && this.rbd == rbd
    {
      this.table, this.rbd, itrdy, tx, sent, events := table, rbd, false, 0, [], [];
    }

    /** Queues the low 9 bits of `d` and, if there was room, switches the interrupt on. */
    method QueueDataToArm(d: bv16)
      requires Ready(table, rbd)
      modifies this`itrdy, table.Footprint(rbd)
      ensures Ready(table, rbd) && table.Footprint(rbd) == old(table.Footprint(rbd))
      ensures Line() == M.Queued(old(Line()), d)
      ensures var queue := old(Line()).queue;
        if |queue| < 4096 then Line().queue == queue + [d & 0x1FF] && itrdy
        else Line().queue == queue && itrdy == old(itrdy)
    {
      hide Ok, Contents, RingTable.Valid, M.Run, M.Decode, M.Received;
      var w := d & 0x1FF;
      var ok := table.PutData(rbd, M.Encode(w));
      if ok {
        itrdy := true;
        WordsOfAppend(old(table.Queue(rbd)), w);
      }
    }

    /** Takes the first word out of the ring buffer. */
    method Take() returns (ok: bool, w: bv16)
      requires Ready(table, rbd)
      modifies table.Footprint(rbd)
      ensures Ready(table, rbd) && table.Footprint(rbd) == old(table.Footprint(rbd)) && ok == (old(Line()).queue != [])
      ensures Line().queue == if ok then old(Line()).queue[1..] else old(Line()).queue
      ensures ok ==> w == old(Line()).queue[0]
    {
      hide Ok, Contents;
      var data;
      ok, data := table.GetData(rbd);
      w := 0;
      if ok {
        w := M.Decode(data);
        ghost var q := table.Queue(rbd);
        assert forall k :: 0 <= k < |q| ==> q[k] == ([data] + q)[k + 1];
        WordsOfCons(data, table.Queue(rbd));
      }
    }

    /** The transmitter is ready for a word. */
    method CallbackUartTrdy()
      requires Valid()
      modifies this`itrdy, this`tx, this`sent, this`events, table.Footprint(rbd)
      ensures Valid() && table.Footprint(rbd) == old(table.Footprint(rbd))
      ensures events == old(events) + [M.Trdy] && Line() == M.Apply(old(Line()), M.Trdy)
      ensures var queue := old(Line()).queue;
        if queue == [] then tx == old(tx) && sent == old(sent) && !itrdy
        else tx == queue[0] & 0x1FF && sent == old(sent) + [tx] && itrdy == old(itrdy)
    {
      hide Ready, Waiting, M.Run;
      var ok, w := Take();
      if !ok {
        itrdy := false;
      } else {
        tx := w & 0x1FF;
        sent := sent + [tx];
      }
      Record(old(events), M.Trdy);
      events := events + [M.Trdy];
    }

    /** The alarm handler takes a word past the interrupt. */
    method ArmHandler()
      requires Valid()
      modifies this`tx, this`sent, this`events, table.Footprint(rbd)
      ensures Valid() && table.Footprint(rbd) == old(table.Footprint(rbd))
      ensures events == old(events) + [M.Arm] && Line() == M.Apply(old(Line()), M.Arm)
      ensures var queue := old(Line()).queue;
        if queue == [] then tx == old(tx) && sent == old(sent)
        else tx == queue[0] && sent == old(sent) + [tx]
    {
      hide Ready, Waiting, M.Run;
      var ok, w := Take();
      if ok {
        tx := w;
        sent := sent + [tx];
      }
      Record(old(events), M.Arm);
      events := events + [M.Arm];
    }

    lemma Record(before: seq<M.Event>, e: M.Event)
      ensures M.Run(START, before + [e]) == M.Apply(M.Run(START, before), e)
    {
      assert (before + [e])[..|before|] == before;
    }

    /** Any number of interrupts between two calls of main code. */
    method Interrupts() returns (ghost came: seq<M.Event>)
      requires Valid()
      modifies this`itrdy, this`tx, this`sent, this`events, table.Footprint(rbd)
      ensures Valid() && table.Footprint(rbd) == old(table.Footprint(rbd))
      ensures events == old(events) + came && Sends(came) == []
    {
      hide Valid, RingTable.Footprint, Sends;
      came := [];
      NoSends();
      var kinds: seq<bool> := *;
      for k := 0 to |kinds|
        invariant Valid() && table.Footprint(rbd) == old(table.Footprint(rbd))
        invariant events == old(events) + came && Sends(came) == []
      {
        if kinds[k] {
          CallbackUartTrdy();
          SendsOneMore(came, M.Trdy);
          came := came + [M.Trdy];
        } else {
          ArmHandler();
          SendsOneMore(came, M.Arm);
          came := came + [M.Arm];
        }
      }
    }

    /** Queues one byte of a protocol. */
    method SendByte(tagged: bool, b: bv8)
      requires Valid()
      modifies this`itrdy, this`events, table.Footprint(rbd)
      ensures Valid() && table.Footprint(rbd) == old(table.Footprint(rbd))
      ensures events == old(events) + [M.Send(tagged, b)]
    {
      hide Ready, Waiting, M.Run;
      QueueDataToArm(if tagged then b as bv16 | 0x100 else b as bv16);
      Record(events, M.Send(tagged, b));
      events := events + [M.Send(tagged, b)];
    }

    /** Queues the bytes of a packet: untagged for KURS, tagged for the other protocol. Interrupts may
        come between any two. */
    method SendPacket(tagged: bool, packet: seq<bv8>) returns (ghost made: seq<M.Event>)
      requires Valid()
      modifies this`itrdy, this`tx, this`sent, this`events, table.Footprint(rbd)
      ensures Valid() && table.Footprint(rbd) == old(table.Footprint(rbd)) && events == old(events) + made
      ensures Sends(made) == seq(|packet|, k requires 0 <= k < |packet| => M.Send(tagged, packet[k]))
    {
      hide Valid, RingTable.Footprint, Sends;
      made := [];
      NoSends();
      var count := 0;
      while count < |packet|
        invariant 0 <= count <= |packet| && Valid()
        invariant table.Footprint(rbd) == old(table.Footprint(rbd)) && events == old(events) + made
        invariant Sends(made) == seq(count, k requires 0 <= k < count => M.Send(tagged, packet[k]))
      {
        SendByte(tagged, packet[count]);
        ghost var came := Interrupts();
        SendsOneMore(made, M.Send(tagged, packet[count]));
        SendsConcat(made + [M.Send(tagged, packet[count])], came);
        made := made + [M.Send(tagged, packet[count])] + came;
        count := count + 1;
      }
    }

    /** At any time: what went out and what waits is, protocol by protocol, what was accepted, and a
        waiting word has the interrupt on. */
    lemma Separates(tagged: bool)
      requires Valid()
      ensures M.Received(sent, tagged) + M.Received(Line().queue, tagged) == M.Accepted(START, events, tagged)
      ensures Line().queue != [] ==> itrdy
    {
      M.RunSeparates(events, tagged);
      M.RunKeepsSound(START, events);
    }
  }

  /** What each protocol has received. */
  class Receiver {
    var kurs: seq<bv8>
    var ipglb: seq<bv8>
    ghost var words: seq<bv16>

    ghost predicate Valid()
      reads this
    {
      kurs == M.Received(words, false) && ipglb == M.Received(words, true)
    }

    constructor ()
      ensures Valid() && words == [] && kurs == [] && ipglb == []
    {
      kurs, ipglb, words := [], [], [];
    }

    /** A word has come in. Bit 8 says whose byte it carries. */
    method CallbackUartRrdy(data: bv16)
      requires Valid()
      modifies this
      ensures Valid() && words == old(words) + [data]
      ensures data & 0x100 != 0 ==> ipglb == old(ipglb) + [(data & 0xFF) as bv8] && kurs == old(kurs)
      ensures data & 0x100 == 0 ==> kurs == old(kurs) + [(data & 0xFF) as bv8] && ipglb == old(ipglb)
    {
      M.ReceivedConcat(words, [data], false);
      M.ReceivedConcat(words, [data], true);
      M.ReceivedOne(data, false);
      M.ReceivedOne(data, true);
      if data & 0x100 != 0 {
        ipglb := ipglb + [(data & 0xFF) as bv8];
      } else {
        kurs := kurs + [(data & 0xFF) as bv8];
      }
      words := words + [data];
    }

    /** A receiver that has been given all words sent has, with what waits, the accepted bytes of each
        protocol, and of no other. */
    lemma ReceivesAccepted(uart: Uart)
      requires Valid() && uart.Valid() && words == uart.sent
      ensures kurs + M.Received(uart.Line().queue, false) == M.Accepted(START, uart.events, false)
      ensures ipglb + M.Received(uart.Line().queue, true) == M.Accepted(START, uart.events, true)
    {
      uart.Separates(false);
      uart.Separates(true);
    }
  }
}

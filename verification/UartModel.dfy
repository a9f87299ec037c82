/** The 9-bit UART that two protocols share: main code queues words, the transmitter-ready interrupt
    and the alarm handler take them out, and bit 8 tells the receiver whose byte a word carries.
 */
module UartModel {
  const CAPACITY := 4096

  /** The word for a byte. The tag says that it belongs to the IPGLB protocol, not to KURS. */
  function Word(tagged: bool, b: bv8): bv16 {
    if tagged then b as bv16 | 0x100 else b as bv16
  }

  function Masked(w: bv16): bv16 {
    w & 0x1FF
  }

  /** Words waiting, whether the interrupt is on, and words written to the transmit register. */
  datatype Line = Line(queue: seq<bv16>, itrdy: bool, sent: seq<bv16>)

  /** What can happen, each without interruption: main code queues a byte, the transmitter-ready
      interrupt comes, the alarm handler runs. */
  datatype Event = Send(tagged: bool, b: bv8) | Trdy | Arm

  function Queued(l: Line, w: bv16): Line {
    if |l.queue| < CAPACITY then Line(l.queue + [Masked(w)], true, l.sent) else l
  }

  function Apply(l: Line, e: Event): Line {
    match e
    case Send(tagged, b) => Queued(l, Word(tagged, b))
    case Trdy =>
      if l.queue == [] then l.(itrdy := false)
      else Line(l.queue[1..], l.itrdy, l.sent + [Masked(l.queue[0])])
    case Arm =>
      if l.queue == [] then l
      else Line(l.queue[1..], l.itrdy, l.sent + [l.queue[0]])
  }

  function Run(l: Line, es: seq<Event>): Line {
    if es == [] then l else Apply(Run(l, es[..|es| - 1]), es[|es| - 1])
  }

  /** Only 9-bit words wait, no more than the queue can hold, and never with the interrupt off. */
  ghost predicate Sound(l: Line) {
    && |l.queue| <= CAPACITY
    && (l.queue != [] ==> l.itrdy)
    && (forall k :: 0 <= k < |l.queue| ==> Masked(l.queue[k]) == l.queue[k])
  }

  lemma MaskedTwice(w: bv16)
    ensures Masked(Masked(w)) == Masked(w)
  {
  }

  /** Nothing that has been accepted is ever left waiting with transmission switched off. */
  lemma {:induction false} RunKeepsSound(l: Line, es: seq<Event>)
    requires Sound(l)
    ensures Sound(Run(l, es))
  {
    if es == [] {
    } else {
      RunKeepsSound(l, es[..|es| - 1]);
      var e := es[|es| - 1];
      if e.Send? {
        MaskedTwice(Word(e.tagged, e.b));
      }
    }
  }

  /** The bytes with tag `tagged` that a run accepts. */
  function Accepted(l: Line, es: seq<Event>, tagged: bool): seq<bv8> {
    if es == [] then [] else
      var before, e := es[..|es| - 1], es[|es| - 1];
      Accepted(l, before, tagged) +
        if e.Send? && e.tagged == tagged && |Run(l, before).queue| < CAPACITY then [e.b] else []
  }

  /** The words that a run accepts, masked to 9 bits. */
  function AcceptedWords(l: Line, es: seq<Event>): seq<bv16> {
    if es == [] then [] else
      var before, e := es[..|es| - 1], es[|es| - 1];
      AcceptedWords(l, before) +
        if e.Send? && |Run(l, before).queue| < CAPACITY then [Masked(Word(e.tagged, e.b))] else []
  }

  /** In every interleaving the words sent, and then the words waiting, are the words accepted, in
      order: none is lost, doubled or overtaken. */
  lemma {:induction false} RunDelivers(l: Line, es: seq<Event>)
    requires Sound(l)
    ensures Run(l, es).sent + Run(l, es).queue == l.sent + l.queue + AcceptedWords(l, es)
  {
    if es == [] {
    } else {
      var before, e := es[..|es| - 1], es[|es| - 1];
      RunDelivers(l, before);
      RunKeepsSound(l, before);
      var m := Run(l, before);
      StepMoves(m, e);
      var more := if e.Send? && |m.queue| < CAPACITY then [Masked(Word(e.tagged, e.b))] else [];
      assert l.sent + l.queue + AcceptedWords(l, es) == (l.sent + l.queue + AcceptedWords(l, before)) + more;
    }
  }

  lemma StepMoves(l: Line, e: Event)
    requires Sound(l)
    ensures Apply(l, e).sent + Apply(l, e).queue ==
      l.sent + l.queue + if e.Send? && |l.queue| < CAPACITY then [Masked(Word(e.tagged, e.b))] else []
  {
  }

  /** The receive rule: bit 8 says whose byte a word carries. */
  function Received(words: seq<bv16>, tagged: bool): seq<bv8> {
    if words == [] then [] else
      var w := words[|words| - 1];
      Received(words[..|words| - 1], tagged) + if (w & 0x100 != 0) == tagged then [(w & 0xFF) as bv8] else []
  }

  lemma WordComesThrough(tagged: bool, b: bv8)
    ensures var w := Masked(Word(tagged, b)); (w & 0x100 != 0) == tagged && (w & 0xFF) as bv8 == b
  {
  }

  lemma {:induction false} ReceivedConcat(s: seq<bv16>, t: seq<bv16>, tagged: bool)
    ensures Received(s + t, tagged) == Received(s, tagged) + Received(t, tagged)
  {
    if t == [] {
      assert s + t == s;
    } else {
      ReceivedConcat(s, t[..|t| - 1], tagged);
      assert (s + t)[..|s + t| - 1] == s + t[..|t| - 1];
    }
  }

  lemma ReceivedOne(w: bv16, tagged: bool)
    ensures Received([w], tagged) == if (w & 0x100 != 0) == tagged then [(w & 0xFF) as bv8] else []
  {
    assert [w][..0] == [];
  }

  lemma {:induction false} AcceptedAreReceived(l: Line, es: seq<Event>, tagged: bool)
    ensures Received(AcceptedWords(l, es), tagged) == Accepted(l, es, tagged)
  {
    if es == [] {
    } else {
      var before, e := es[..|es| - 1], es[|es| - 1];
      AcceptedAreReceived(l, before, tagged);
      if e.Send? && |Run(l, before).queue| < CAPACITY {
        var w := Masked(Word(e.tagged, e.b));
        WordComesThrough(e.tagged, e.b);
        ReceivedConcat(AcceptedWords(l, before), [w], tagged);
        ReceivedOne(w, tagged);
        assert AcceptedWords(l, es) == AcceptedWords(l, before) + [w];
      } else {
        assert AcceptedWords(l, es) == AcceptedWords(l, before);
      }
    }
  }

  /** However the bytes of the two protocols and the interrupts interleave, the receive rule gives
      each protocol its own accepted bytes, in order: those sent so far, then those still waiting. */
  lemma RunSeparates(es: seq<Event>, tagged: bool)
    ensures var l := Run(Line([], false, []), es);
      Received(l.sent, tagged) + Received(l.queue, tagged) == Accepted(Line([], false, []), es, tagged)
  {
    var l0 := Line([], false, []);
    var l := Run(l0, es);
    RunDelivers(l0, es);
    AcceptedAreReceived(l0, es, tagged);
    ReceivedConcat(l.sent, l.queue, tagged);
    assert l0.sent + l0.queue + AcceptedWords(l0, es) == AcceptedWords(l0, es);
  }

  /** As long as nothing new is queued, one interrupt for each waiting word sends them all, and the
      next one switches the interrupt off. */
  lemma {:induction false} Drains(l: Line, es: seq<Event>)
    requires Sound(l) && |es| <= |l.queue| && forall k :: 0 <= k < |es| ==> es[k] == Trdy
    ensures Run(l, es) == Line(l.queue[|es|..], l.itrdy, l.sent + l.queue[..|es|])
    ensures |es| == |l.queue| ==> Apply(Run(l, es), Trdy) == Line([], false, l.sent + l.queue)
  {
    if es == [] {
    } else {
      var before := es[..|es| - 1];
      Drains(l, before);
      assert l.queue[..|before|] + [l.queue[|before|]] == l.queue[..|es|];
    }
  }

  // ----- Words in the byte buffer --------------------------------------------------------------

  function Encode(w: bv16): seq<bv8> {
    [(w & 0xFF) as bv8, (w >> 8) as bv8]
  }

  function Decode(b: seq<bv8>): bv16
    requires |b| == 2
  {
    b[0] as bv16 | (b[1] as bv16 << 8)
  }

  lemma EncodeThenDecode(w: bv16)
    ensures Decode(Encode(w)) == w
  {
  }
}

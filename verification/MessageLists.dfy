/** The doubly linked message nodes of the scheduler and the mailbox that holds them until their
    task is dispatched.
 */
module MessageLists {
  import opened SchedulerModel

  /** What memory a node has: its own, or its own and that of its data. The node is freed without its
      data, so that each is freed exactly once. */
  datatype Memory = NodeOnly | Allocated | Freed

  /** The values of the 16-bit message count. */
  const COUNTS := 0x1_0000

  class Message {
    const src: nat
    const dst: nat
    const data: seq<bv8>
    var next: Message?
    var previous: Message?
    ghost var memory: Memory
    ghost var owner: object

    constructor (src: nat, dst: nat, data: seq<bv8>, owner: object)
      ensures next == null && previous == null && memory == NodeOnly
      ensures this.src == src && this.dst == dst && this.data == data && this.owner == owner
    {
      this.src, this.dst, this.data := src, dst, data;
      next, previous := null, null;
      memory, this.owner := NodeOnly, owner;
    }

    ghost function Value(): Msg {
      Msg(src, dst, data)
    }

    /** Memory for the data has been found too. */
    method TakeData()
      requires memory == NodeOnly
      modifies this`memory
      ensures memory == Allocated
    {
      memory := Allocated;
    }

    /** The first of the two calls of `free` for a message. */
    method FreeData()
      requires memory == Allocated
      modifies this`memory
      ensures memory == NodeOnly
    {
      memory := NodeOnly;
    }

    method FreeNode()
      requires memory == NodeOnly
      modifies this`memory
      ensures memory == Freed
    {
      memory := Freed;
    }
  }

  /** The node at position `i`, null beyond either end. */
  ghost function At(s: seq<Message>, i: int): Message? {
    if 0 <= i < |s| then s[i] else null
  }

  /** The nodes of `s` are distinct and linked in both directions, in the order of `s`. */
  ghost predicate Linked(s: seq<Message>)
    reads Nodes(s)
  {
    && Distinct(s)
    && (forall i {:trigger s[i].next} :: 0 <= i < |s| ==> s[i].next == At(s, i + 1))
    && (forall i {:trigger s[i].previous} :: 0 <= i < |s| ==> s[i].previous == At(s, i - 1))
  }

  ghost predicate OwnedBy(s: seq<Message>, o: object)
    reads Nodes(s)
  {
    && (forall i {:trigger s[i].owner} :: 0 <= i < |s| ==> s[i].owner == o)
    && (forall i {:trigger s[i].memory} :: 0 <= i < |s| ==> s[i].memory == Allocated)
  }

  ghost function Nodes(s: seq<Message>): set<Message> {
    set m | m in s
  }

  ghost predicate Distinct(s: seq<Message>) {
    forall i, j :: 0 <= i < j < |s| ==> s[i] != s[j]
  }

  /** A list stays linked when a fresh node is hung on its last node. */
  lemma LinkedAppend(s: seq<Message>, m: Message)
    requires Distinct(s) && m !in s
    requires forall i {:trigger s[i].previous} :: 0 <= i < |s| ==> s[i].previous == At(s, i - 1)
    requires forall i {:trigger s[i].next} :: 0 <= i < |s| ==> s[i].next == if i == |s| - 1 then m else At(s, i + 1)
    requires m.next == null && m.previous == At(s, |s| - 1)
    ensures Linked(s + [m])
  {
    var r := s + [m];
    forall i | 0 <= i < |r|
      ensures r[i].next == At(r, i + 1) && r[i].previous == At(r, i - 1)
    {
      assert i < |s| ==> r[i] == s[i];
    }
  }

  lemma OwnersDiffer(s: seq<Message>, o: object, t: seq<Message>, p: object)
    requires OwnedBy(s, o) && OwnedBy(t, p) && o != p
    ensures forall i :: 0 <= i < |s| ==> s[i] !in t
    ensures forall j :: 0 <= j < |t| ==> t[j] !in s
    ensures Nodes(s) !! Nodes(t)
  {
    forall i, j | 0 <= i < |s| && 0 <= j < |t|
      ensures s[i] != t[j]
    {
      assert s[i].owner == o && t[j].owner == p;
    }
  }

  lemma NodesMoved(from: seq<Message>, i: nat, to: seq<Message>)
    requires i < |from|
    ensures Nodes(Without(from, i)) <= Nodes(from)
    ensures Nodes(to + [from[i]]) <= Nodes(to) + Nodes(from)
  {
  }

  lemma WithoutMisses(s: seq<Message>, i: nat)
    requires Distinct(s) && i < |s|
    ensures s[i] !in Without(s, i)
  {
  }

  /** The neighbours of the node at position `i` skip it. */
  ghost predicate Skipped(s: seq<Message>, i: nat)
    reads Nodes(s)
  {
    && (forall k {:trigger s[k].next} :: 0 <= k < |s| && k != i ==>
          s[k].next == At(s, if k + 1 == i then k + 2 else k + 1))
    && (forall k {:trigger s[k].previous} :: 0 <= k < |s| && k != i ==>
          s[k].previous == At(s, if k - 1 == i then k - 2 else k - 1))
  }

  /** A list stays linked when the neighbours of a node are made to skip it. */
  lemma LinkedWithout(s: seq<Message>, i: nat)
    requires Distinct(s) && i < |s| && Skipped(s, i)
    ensures Linked(Without(s, i))
  {
    var r := Without(s, i);
    forall j | 0 <= j < |r|
      ensures r[j].next == At(r, j + 1) && r[j].previous == At(r, j - 1)
    {
      var k := if j < i then j else j + 1;
      assert r[j] == s[k];
    }
    forall j, k | 0 <= j < k < |r|
      ensures r[j] != r[k]
    {
      assert r[j] == s[if j < i then j else j + 1] && r[k] == s[if k < i then k else k + 1];
    }
  }

  ghost function Values(s: seq<Message>): (r: seq<Msg>)
    ensures |r| == |s|
    ensures forall i :: 0 <= i < |s| ==> r[i] == s[i].Value()
  {
    seq(|s|, i requires 0 <= i < |s| => s[i].Value())
  }

  /** The nodes of `s` for destination `h`, in order. */
  ghost function Matching(s: seq<Message>, h: nat): (r: seq<Message>)
  {
    if s == [] then [] else
      var rest := Matching(s[..|s| - 1], h);
      if s[|s| - 1].dst == h then rest + [s[|s| - 1]] else rest
  }

  ghost function Remaining(s: seq<Message>, h: nat): (r: seq<Message>)
    ensures |r| <= |s|
  {
    if s == [] then [] else
      var rest := Remaining(s[..|s| - 1], h);
      if s[|s| - 1].dst == h then rest else rest + [s[|s| - 1]]
  }

  lemma NodesConcat(s: seq<Message>, t: seq<Message>)
    ensures Nodes(s + t) == Nodes(s) + Nodes(t)
  {
  }

  lemma {:induction false} SplitWithin(s: seq<Message>, h: nat)
    ensures Nodes(Matching(s, h)) <= Nodes(s) && Nodes(Remaining(s, h)) <= Nodes(s)
  {
    if s == [] {
    } else {
      var rest, last := s[..|s| - 1], s[|s| - 1];
      SplitWithin(rest, h);
      NodesConcat(rest, [last]);
      NodesConcat(Matching(rest, h), [last]);
      NodesConcat(Remaining(rest, h), [last]);
      assert s == rest + [last];
    }
  }

  lemma MatchingAreListed(s: seq<Message>, h: nat)
    ensures forall m :: m in Matching(s, h) ==> m in s
  {
    SplitWithin(s, h);
    assert forall m :: m in Matching(s, h) ==> m in Nodes(Matching(s, h));
  }

  /** The nodes of `s` before position `k` are split: `went` went, the others stayed in `stayed`. */
  ghost predicate SplitAt(s: seq<Message>, k: nat, h: nat, stayed: seq<Message>, went: seq<Message>)
    requires k <= |s|
  {
    stayed == Remaining(s[..k], h) + s[k..] && went == Matching(s[..k], h)
  }

  lemma SplitStart(s: seq<Message>, h: nat)
    ensures SplitAt(s, 0, h, s, [])
  {
    assert s[..0] == [] && s[0..] == s;
  }

  lemma SplitEnd(s: seq<Message>, k: nat, h: nat, stayed: seq<Message>, went: seq<Message>)
    requires k == |s| && SplitAt(s, k, h, stayed, went)
    ensures stayed == Remaining(s, h) && went == Matching(s, h)
  {
    assert s[..|s|] == s && s[|s|..] == [];
  }

  /** What the extraction does with the node at position `k`. */
  lemma SplitStep(s: seq<Message>, k: nat, h: nat, stayed: seq<Message>, went: seq<Message>)
    requires k < |s| && SplitAt(s, k, h, stayed, went)
    ensures |s| - k <= |stayed| <= |s|
    ensures var i := |stayed| - |s[k..]|;
      && stayed[i] == s[k] && At(stayed, i + 1) == At(s, k + 1)
      && (s[k].dst == h ==> SplitAt(s, k + 1, h, Without(stayed, i), went + [s[k]]))
      && (s[k].dst != h ==> SplitAt(s, k + 1, h, stayed, went))
  {
    assert s[..k + 1][..k] == s[..k];
    assert s[k..] == [s[k]] + s[k + 1..];
  }

  lemma ValuesOfSnoc(s: seq<Message>, m: Message)
    ensures Values(s + [m]) == Values(s) + [m.Value()]
  {
  }

  lemma ValuesConcat(s: seq<Message>, t: seq<Message>)
    ensures Values(s + t) == Values(s) + Values(t)
  {
  }

  lemma {:induction false} ValuesOfMatching(s: seq<Message>, h: nat)
    ensures Values(Matching(s, h)) == Select(Values(s), h)
  {
    if s == [] {
    } else {
      var rest, last := s[..|s| - 1], s[|s| - 1];
      ValuesOfMatching(rest, h);
      assert Values(s)[..|s| - 1] == Values(rest);
      ValuesOfSnoc(Matching(rest, h), last);
    }
  }

  lemma {:induction false} ValuesOfRemaining(s: seq<Message>, h: nat)
    ensures Values(Remaining(s, h)) == Reject(Values(s), h)
  {
    if s == [] {
    } else {
      var rest, last := s[..|s| - 1], s[|s| - 1];
      ValuesOfRemaining(rest, h);
      assert Values(s)[..|s| - 1] == Values(rest);
      ValuesOfSnoc(Remaining(rest, h), last);
    }
  }

  /** The list head kept in a task, reached through a pointer to it. */
  class Inbox {
    var head: Message?
    ghost var nodes: seq<Message>

    constructor ()
      ensures head == null && nodes == []
    {
      head, nodes := null, [];
    }

    ghost predicate Valid()
      reads this, Nodes(nodes)
    {
      Linked(nodes) && OwnedBy(nodes, this) && head == At(nodes, 0)
    }

    /** Finds the last node by walking the list. */
    method LocateTail() returns (tail: Message?)
      requires Valid()
      ensures tail == At(nodes, |nodes| - 1)
    {
      tail := null;
      var node := head;
      ghost var i := 0;
      while node != null
        invariant i <= |nodes|
        invariant node == At(nodes, i)
        invariant tail == At(nodes, i - 1)
        decreases |nodes| - i
      {
        tail := node;
        node := node.next;
        i := i + 1;
      }
    }

    /** Hangs a detached node on the last node. */
    method Append(m: Message, tail: Message?) returns (newTail: Message)
      requires Valid() && tail == At(nodes, |nodes| - 1)
      requires m !in nodes && m.next == null && m.previous == null && m.owner == this && m.memory == Allocated
      modifies `head, `nodes, nodes`next, m`next, m`previous
      ensures Valid() && nodes == old(nodes) + [m] && newTail == m
    {
      if null == head {
        head := m;
        newTail := m;
      } else {
        tail.next := m;
        m.previous := tail;
        newTail := tail.next;
      }
      newTail.next := null;
      LinkedAppend(nodes, m);
      nodes := nodes + [m];
    }

    /** Frees the whole list: the data and the node of every message exactly once. */
    method Flush()
      requires Valid()
      modifies `head, `nodes, nodes`next, nodes`memory
      ensures Valid() && head == null && nodes == []
      ensures forall m :: m in old(nodes) ==> m.memory == Freed
    {
      head := FlushFrom(head, nodes);
      nodes := [];
    }

    /** The variant without recursion, for compilers that cannot re-enter a function. */
    method FlushIteratively()
      requires Valid()
      modifies `head, `nodes, nodes`next, nodes`memory
      ensures Valid() && head == null && nodes == []
      ensures forall m :: m in old(nodes) ==> m.memory == Freed
    {
      ghost var s, i := nodes, 0;
      while head != null
        invariant i <= |s| && head == At(s, i) && (head == null ==> i == |s|)
        invariant forall k {:trigger s[k].next} :: i <= k < |s| ==> s[k].next == At(s, k + 1)
        invariant forall k {:trigger s[k].memory} :: 0 <= k < |s| ==> s[k].memory == if k < i then Freed else Allocated
        decreases |s| - i
      {
        var rest := head.next;
        head.FreeData();
        head.FreeNode();
        head := rest;
        i := i + 1;
      }
      nodes := [];
      assert forall m :: m in s ==> exists k :: 0 <= k < |s| && s[k] == m;
    }

    /** The recursion of the flush: everything behind the node goes first, and its link is cleared,
        then the node itself goes. The result is what the caller's pointer is left with. */
    static method FlushFrom(node: Message?, ghost rest: seq<Message>) returns (left: Message?)
      requires Chained(rest) && node == At(rest, 0)
      requires forall m :: m in rest ==> m.memory == Allocated
      modifies rest`next, rest`memory
      ensures left == null
      ensures forall m :: m in rest ==> m.memory == Freed && m.next == null
      decreases |rest|
    {
      left := node;
      if left != null {
        left.next := FlushFrom(left.next, rest[1..]);
        left.FreeData();
        left.FreeNode();
        left := null;
      }
    }
  }

  /** Distinct nodes linked forward in the order of `s`: what the flush relies on. */
  ghost predicate Chained(s: seq<Message>)
    reads Nodes(s)
  {
    && Distinct(s)
    && (forall i {:trigger s[i].next} :: 0 <= i < |s| ==> s[i].next == At(s, i + 1))
  }

  class Mailbox {
    var head: Message?
    var tail: Message?
    var count: nat
    ghost var nodes: seq<Message>

    constructor ()
      ensures Valid() && nodes == []
    {
      head, tail, count, nodes := null, null, 0, [];
    }

    /** The count is a 16-bit number, so it is the length only up to 2^16. */
    ghost predicate Valid()
      reads this, Nodes(nodes)
    {
      Shaped() && OwnedBy(nodes, this) && count == |nodes| % COUNTS
    }

    ghost predicate Shaped()
      reads this, Nodes(nodes)
    {
      Linked(nodes) && head == At(nodes, 0) && tail == At(nodes, |nodes| - 1)
    }

    method Insert(m: Message)
      requires Valid()
      requires m !in nodes && m.next == null && m.previous == null && m.owner == this && m.memory == Allocated
      modifies `head, `tail, `count, `nodes, nodes`next, m`previous
      ensures Valid() && nodes == old(nodes) + [m]
    {
      hide Nodes;
      if head != null {
        m.previous := tail;
        tail.next := m;
        tail := m;
      } else {
        head := m;
        tail := m;
      }
      count := (count + 1) % COUNTS;
      LinkedAppend(nodes, m);
      nodes := nodes + [m];
    }

    /** Makes head, tail and neighbours skip the node at position `i` of a longer list. */
    method Bypass(m: Message, ghost i: nat)
      requires Shaped() && i < |nodes| && nodes[i] == m && |nodes| > 1
      modifies this`head, this`tail, nodes`next, nodes`previous
      ensures m.next == old(m.next) && Distinct(nodes) && Skipped(nodes, i)
      ensures head == nodes[if i == 0 then 1 else 0]
      ensures tail == nodes[if i == |nodes| - 1 then |nodes| - 2 else |nodes| - 1]
    {
      if m == head {
        assert i == 0 && m.next == At(nodes, 1);
        head := m.next;
        head.previous := null;
      } else if m == tail {
        assert i == |nodes| - 1;
        tail := tail.previous;
        tail.next := null;
      } else {
        assert 0 < i < |nodes| - 1 && m.previous == nodes[i - 1] && m.next == nodes[i + 1];
        m.previous.next := m.next;
        m.next.previous := m.previous;
      }
    }

    /** Unlinks the node at position `i`. The test for a single node looks at the 16-bit count; when
        it is taken for a longer list, the whole list is lost. */
    method Remove(m: Message, ghost i: nat)
      requires Shaped() && count == |nodes| % COUNTS && i < |nodes| && nodes[i] == m
      modifies this`head, this`tail, this`nodes, nodes`next, nodes`previous
      ensures m.next == old(m.next)
      ensures i == 0 && |old(nodes)| % 0x1_0000 == 1 ==> head == null && tail == null && nodes == []
      ensures !(i == 0 && |old(nodes)| % 0x1_0000 == 1) ==> nodes == Without(old(nodes), i)
      ensures Shaped()
    {
      if m == head && 1 == count {
        head := null;
        tail := null;
        nodes := [];
      } else {
        Bypass(m, i);
        LinkedWithout(nodes, i);
        nodes := Without(nodes, i);
      }
    }

    /** Takes the node at position `i` out of the mailbox and clears its links. The result is the
        node behind it. */
    method Detach(m: Message, ghost i: nat, ghost newOwner: object) returns (scanner: Message?)
      requires Valid() && i < |nodes| <= COUNTS && nodes[i] == m
      modifies `head, `tail, `count, `nodes, nodes`next, nodes`previous, m`owner
      ensures Valid() && nodes == Without(old(nodes), i) && m !in nodes
      ensures m.next == null && m.previous == null && m.owner == newOwner
      ensures scanner == At(old(nodes), i + 1)
    {
      hide Distinct, Values, At;
      WithoutMisses(nodes, i);
      Remove(m, i);
      assert m !in nodes && OwnedBy(nodes, this);
      count := (count - 1) % COUNTS;
      scanner := m.next;
      m.next := null;
      m.previous := null;
      m.owner := newOwner;
      assert Shaped() && OwnedBy(nodes, this);
      if count == 0 {
        tail := null;
      }
    }

    /** The objects that an extraction to `inbox` may change. */
    ghost function Region(inbox: Inbox): set<object>
      reads this, inbox
    {
      {this, inbox} + Nodes(nodes) + Nodes(inbox.nodes)
    }

    /** The extraction for `h` half way: the scanner is at position `k` of the original list `s`, and
        `went` are the nodes that have moved to `inbox`, behind its original nodes `inbox0`. */
    ghost predicate Extracting(h: nat, inbox: Inbox, s: seq<Message>, inbox0: seq<Message>, k: nat,
                               went: seq<Message>, scanner: Message?, tail: Message?)
      reads this, Nodes(nodes), inbox, Nodes(inbox.nodes)
    {
      && Valid() && inbox.Valid()
      && k <= |s| && scanner == At(s, k) && (scanner == null ==> k == |s|) && tail == At(inbox.nodes, |inbox.nodes| - 1)
      && inbox.nodes == inbox0 + went && SplitAt(s, k, h, nodes, went) && |nodes| <= COUNTS
    }

    /** Moves every message for `h` to the end of `inbox`, keeping the order of both lists. */
    method Extract(h: nat, inbox: Inbox, ghost region: set<object>)
      requires Valid() && inbox.Valid() && |nodes| <= COUNTS && Region(inbox) <= region
      modifies region
      ensures Valid() && inbox.Valid() && Region(inbox) <= region
      ensures nodes == Remaining(old(nodes), h)
      ensures inbox.nodes == old(inbox.nodes) + Matching(old(nodes), h)
    {
      var tail := inbox.LocateTail();
      Scan(h, inbox, tail, region);
    }

    /** The scan of the mailbox, with the last node of the inbox already found. */
    method Scan(h: nat, inbox: Inbox, inboxTail: Message?, ghost region: set<object>)
      requires Valid() && inbox.Valid() && |nodes| <= COUNTS && Region(inbox) <= region
      requires inboxTail == At(inbox.nodes, |inbox.nodes| - 1)
      modifies region
      ensures Valid() && inbox.Valid() && Region(inbox) <= region
      ensures nodes == Remaining(old(nodes), h)
      ensures inbox.nodes == old(inbox.nodes) + Matching(old(nodes), h)
    {
      ghost var s, inbox0, went, k := nodes, inbox.nodes, [], 0;
      var tail := inboxTail;
      var scanner := head;
      StartsExtracting(h, inbox, scanner, tail);
      while scanner != null
        invariant Region(inbox) <= region
        invariant Extracting(h, inbox, s, inbox0, k, went, scanner, tail)
        decreases |s| - k
      {
        scanner, tail, went := Advance(h, inbox, region, s, inbox0, k, went, scanner, tail);
        k := k + 1;
      }
      EndsExtracting(h, inbox, s, inbox0, k, went, scanner, tail);
    }

    lemma StartsExtracting(h: nat, inbox: Inbox, scanner: Message?, tail: Message?)
      requires Valid() && inbox.Valid() && |nodes| <= COUNTS
      requires scanner == head && tail == At(inbox.nodes, |inbox.nodes| - 1)
      ensures Extracting(h, inbox, nodes, inbox.nodes, 0, [], scanner, tail)
    {
      SplitStart(nodes, h);
    }

    lemma EndsExtracting(h: nat, inbox: Inbox, s: seq<Message>, inbox0: seq<Message>, k: nat, went: seq<Message>,
                         scanner: Message?, tail: Message?)
      requires Extracting(h, inbox, s, inbox0, k, went, scanner, tail) && scanner == null
      ensures Valid() && inbox.Valid()
      ensures nodes == Remaining(s, h) && inbox.nodes == inbox0 + Matching(s, h)
    {
      SplitEnd(s, k, h, nodes, went);
    }

    lemma Follows(m: Message, i: nat)
      requires Valid() && i < |nodes| && nodes[i] == m
      ensures m.next == At(nodes, i + 1)
      ensures At(nodes, i + 1) == null ==> i + 1 == |nodes|
    {
    }

    /** One round of the extraction. */
    method Advance(h: nat, inbox: Inbox, ghost region: set<object>, ghost s: seq<Message>, ghost inbox0: seq<Message>,
                   ghost k: nat, ghost went: seq<Message>, scanner: Message, tail: Message?)
      returns (newScanner: Message?, newTail: Message?, ghost newWent: seq<Message>)
      requires Region(inbox) <= region
      requires Extracting(h, inbox, s, inbox0, k, went, scanner, tail)
      modifies region
      ensures Region(inbox) <= region
      ensures Extracting(h, inbox, s, inbox0, k + 1, newWent, newScanner, newTail)
    {
      hide Linked, OwnedBy, Distinct, Shaped;
      SplitStep(s, k, h, nodes, went);
      ghost var i := |nodes| - |s[k..]|;
      Follows(scanner, i);
      NodesMoved(nodes, i, inbox.nodes);
      newTail, newWent := tail, went;
      if scanner.dst == h {
        newScanner, newTail := Move(scanner, i, inbox, tail, region);
        newWent := went + [scanner];
      } else {
        newScanner := scanner.next;
      }
    }

    /** One match of the extraction: from the mailbox to the end of the inbox. */
    method Move(m: Message, ghost i: nat, inbox: Inbox, tail: Message?, ghost region: set<object>)
      returns (scanner: Message?, newTail: Message)
      requires Valid() && inbox.Valid() && i < |nodes| <= COUNTS && nodes[i] == m && Region(inbox) <= region
      requires tail == At(inbox.nodes, |inbox.nodes| - 1)
      modifies region
      ensures Valid() && inbox.Valid()
      ensures nodes == Without(old(nodes), i) && inbox.nodes == old(inbox.nodes) + [m]
      ensures scanner == At(old(nodes), i + 1) && newTail == m
    {
      OwnersDiffer(nodes, this, inbox.nodes, inbox);
      assert m !in inbox.nodes;
      scanner := Detach(m, i, inbox);
      assert inbox.Valid();
      newTail := inbox.Append(m, tail);
    }
  }
}

/** The doubly linked list of task nodes: creation at the tail, deletion anywhere, look-up by handle. */
module TaskList {
  import opened SchedulerModel
  import opened MessageLists

  class TaskNode {
    const id: nat
    const fn: nat
    const inbox: Inbox
    var active: bool
    var prio: Priority
    var sTicks: nat
    var nTicks: nat
    var eTicks: nat
    var next: TaskNode?
    var previous: TaskNode?

    constructor (id: nat, active: bool, prio: Priority, sTicks: nat, nTicks: nat, fn: nat)
      ensures this.id == id && this.fn == fn && this.active == active && this.prio == prio
      ensures this.sTicks == sTicks && this.nTicks == nTicks && eTicks == 0
      ensures next == null && previous == null
      ensures fresh(inbox) && inbox.Valid() && inbox.nodes == []
    {
      this.id, this.fn, this.active, this.prio := id, fn, active, prio;
      this.sTicks, this.nTicks, eTicks := sTicks, nTicks, 0;
      next, previous := null, null;
      inbox := new Inbox();
    }

    method Assign(active: bool, prio: Priority, sTicks: nat, nTicks: nat, eTicks: nat)
      modifies `active, `prio, `sTicks, `nTicks, `eTicks
      ensures Value() == old(Value()).(
        active := active, prio := prio, sTicks := sTicks, nTicks := nTicks, eTicks := eTicks)
    {
      this.active, this.prio, this.sTicks, this.nTicks, this.eTicks := active, prio, sTicks, nTicks, eTicks;
    }

    ghost function Value(): Task
      reads this, inbox
    {
      Task(id, active, prio, sTicks, nTicks, eTicks, fn, Values(inbox.nodes))
    }
  }

  ghost function NodeAt(s: seq<TaskNode>, i: int): TaskNode? {
    if 0 <= i < |s| then s[i] else null
  }

  ghost predicate AllDistinct(s: seq<TaskNode>) {
    forall i, j :: 0 <= i < j < |s| ==> s[i] != s[j]
  }

  ghost predicate Chain(s: seq<TaskNode>)
    reads s
  {
    && AllDistinct(s)
    && (forall i {:trigger s[i].next} :: 0 <= i < |s| ==> s[i].next == NodeAt(s, i + 1))
    && (forall i {:trigger s[i].previous} :: 0 <= i < |s| ==> s[i].previous == NodeAt(s, i - 1))
  }

  lemma ChainAppend(s: seq<TaskNode>, t: TaskNode)
    requires AllDistinct(s) && t !in s
    requires forall i {:trigger s[i].previous} :: 0 <= i < |s| ==> s[i].previous == NodeAt(s, i - 1)
    requires forall i {:trigger s[i].next} :: 0 <= i < |s| ==> s[i].next == if i == |s| - 1 then t else NodeAt(s, i + 1)
    requires t.next == null && t.previous == NodeAt(s, |s| - 1)
    ensures Chain(s + [t])
  {
    var r := s + [t];
    forall i | 0 <= i < |r|
      ensures r[i].next == NodeAt(r, i + 1) && r[i].previous == NodeAt(r, i - 1)
    {
      assert i < |s| ==> r[i] == s[i];
    }
  }

  /** The neighbours of the node at position `i` skip it. */
  ghost predicate Bypassed(s: seq<TaskNode>, i: nat)
    reads s
  {
    && (forall k {:trigger s[k].next} :: 0 <= k < |s| && k != i ==>
          s[k].next == NodeAt(s, if k + 1 == i then k + 2 else k + 1))
    && (forall k {:trigger s[k].previous} :: 0 <= k < |s| && k != i ==>
          s[k].previous == NodeAt(s, if k - 1 == i then k - 2 else k - 1))
  }

  lemma ChainWithout(s: seq<TaskNode>, i: nat)
    requires AllDistinct(s) && i < |s| && Bypassed(s, i)
    ensures Chain(Without(s, i))
  {
    var r := Without(s, i);
    forall j | 0 <= j < |r|
      ensures r[j].next == NodeAt(r, j + 1) && r[j].previous == NodeAt(r, j - 1)
    {
      var k := if j < i then j else j + 1;
      assert r[j] == s[k];
    }
    forall j, k | 0 <= j < k < |r|
      ensures r[j] != r[k]
    {
      assert r[j] == s[if j < i then j else j + 1] && r[k] == s[if k < i then k else k + 1];
    }
  }

  class Tasks {
    var head: TaskNode?
    var tail: TaskNode?
    var count: nat
    ghost var nodes: seq<TaskNode>

    constructor ()
      ensures Valid() && nodes == []
    {
      head, tail, count, nodes := null, null, 0, [];
    }

    ghost predicate Valid()
      reads this, nodes
    {
      Chain(nodes) && head == NodeAt(nodes, 0) && tail == NodeAt(nodes, |nodes| - 1) && count == |nodes| < HANDLES
    }

    method Append(t: TaskNode)
      requires Valid() && |nodes| + 1 < HANDLES
      requires t !in nodes && t.next == null && t.previous == null
      modifies `head, `tail, `count, `nodes, nodes`next, t`previous
      ensures Valid() && nodes == old(nodes) + [t]
    {
      count := count + 1;
      if head != null {
        t.previous := tail;
        tail.next := t;
        tail := t;
      } else {
        head := t;
        tail := t;
      }
      ChainAppend(nodes, t);
      nodes := nodes + [t];
    }

    /** Makes head, tail and neighbours skip the node at position `i` of a longer list. */
    method Bypass(t: TaskNode, ghost i: nat)
      requires Valid() && i < |nodes| && nodes[i] == t && |nodes| > 1
      modifies `head, `tail, nodes`next, nodes`previous
      ensures AllDistinct(nodes) && Bypassed(nodes, i)
      ensures head == nodes[if i == 0 then 1 else 0]
      ensures tail == nodes[if i == |nodes| - 1 then |nodes| - 2 else |nodes| - 1]
    {
      if t == head {
        assert i == 0 && t.next == NodeAt(nodes, 1);
        head := head.next;
        head.previous := null;
      } else if t == tail {
        assert i == |nodes| - 1;
        tail := tail.previous;
        tail.next := null;
      } else {
        assert 0 < i < |nodes| - 1 && t.previous == nodes[i - 1] && t.next == nodes[i + 1];
        t.previous.next := t.next;
        t.next.previous := t.previous;
      }
    }

    /** Unlinks the node at position `i`; the count follows once the node is freed. */
    method Unlink(t: TaskNode, ghost i: nat)
      requires Valid() && i < |nodes| && nodes[i] == t
      modifies `head, `tail, `count, `nodes, nodes`next, nodes`previous
      ensures Valid() && nodes == Without(old(nodes), i)
    {
      if t == head && 1 == count {
        head := null;
        tail := null;
        nodes := [];
      } else {
        Bypass(t, i);
        ChainWithout(nodes, i);
        nodes := Without(nodes, i);
      }
      count := count - 1;
    }

    /** Looks a handle up from the head. `i` is the position of the first node that has it. */
    method Locate(h: nat) returns (node: TaskNode?, ghost i: nat)
      requires Valid()
      ensures i <= |nodes| && node == NodeAt(nodes, i) && (node == null <==> i == |nodes|)
      ensures i < |nodes| ==> nodes[i].id == h
      ensures forall k :: 0 <= k < i ==> nodes[k].id != h
    {
      node, i := head, 0;
      var located := false;
      if count != 0 {
        while node != null && !located
          invariant i <= |nodes| && node == NodeAt(nodes, i) && (node == null <==> i == |nodes|)
          invariant located ==> node != null && node.id == h
          invariant forall k :: 0 <= k < i ==> nodes[k].id != h
          decreases |nodes| - i, !located
        {
          if node.id == h {
            located := true;
          } else {
            node := node.next;
            i := i + 1;
          }
        }
      }
    }
  }
}

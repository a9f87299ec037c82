/** The scheduler on its linked nodes. Every operation is proved to act on the state of
    SchedulerModel as the step of the same name, and the steps taken are kept as a ghost trace, so
    that what is proved about runs there holds of every sequence of calls here.
 */
module Scheduler {
  import opened Ticks
  import opened SchedulerModel
  import opened SchedulerPass
  import opened MessageLists
  import opened TaskList

  /** The source of system ticks. Time passes by any amount between two readings. */
  class Clock {
    var now: nat

    constructor ()
    {
      now := 0;
    }

    method Read() returns (c: nat)
      modifies this
      ensures now >= old(now) && c == Counter(now)
    {
      var passed: nat :| passed >= 0;
      now := now + passed;
      c := Counter(now);
    }
  }

  /** The steps made so far. Only the proofs look at it. */
  class History {
    ghost var steps: seq<Step>

    constructor ()
      ensures steps == []
    {
      steps := [];
    }
  }

  ghost function TaskValues(s: seq<TaskNode>): (r: seq<Task>)
    reads s, set t | t in s :: t.inbox
    ensures |r| == |s|
    ensures forall i :: 0 <= i < |s| ==> r[i] == s[i].Value()
  {
    seq(|s|, i requires 0 <= i < |s| reads s, set t | t in s :: t.inbox => s[i].Value())
  }

  lemma FindIs(s: seq<TaskNode>, h: nat, i: nat)
    requires i <= |s| && (i < |s| ==> s[i].id == h)
    requires forall k :: 0 <= k < i ==> s[k].id != h
    ensures Find(TaskValues(s), h) == i
  {
    var ts := TaskValues(s);
    assert forall k :: 0 <= k < |s| ==> ts[k].id == s[k].id;
    var f := Find(ts, h);
    assert f <= i && i <= f;
  }

  /** The steps lead from the initial state to `w`, and every one was made with good reason and in
      its time, up to `now`. */
  ghost predicate Explains(steps: seq<Step>, now: nat, w: World) {
    && w.lastId == Creations(steps) < HANDLES
    && w == Run(INITIAL, steps)
    && Legal(INITIAL, steps) && Chronological(steps)
    && (forall k :: 0 <= k < |steps| && Timed(steps[k]) ==> steps[k].now <= now)
  }

  lemma StartExplained(now: nat)
    ensures Explains([], now, INITIAL)
  {
  }

  ghost predicate StepOk(w: World, s: Step, now: nat) {
    && (s.Create? ==> w.lastId + 1 < HANDLES)
    && (s.Begin? ==> CanBegin(w, s.h, s.now))
    && (Timed(s) ==> s.now == now)
  }

  lemma ExplainsOneMore(steps: seq<Step>, now: nat, w: World, s: Step)
    requires Explains(steps, now, w) && StepOk(w, s, now)
    ensures Explains(steps + [s], now, Apply(w, s))
  {
    hide Apply, WellFormed, Find, CanBegin, Run;
    RunOne(INITIAL, steps, s);
    RunKeepsWellFormed(INITIAL, steps);
    ApplyKeepsWellFormed(w, s);
    var longer := steps + [s];
    assert longer[..|steps|] == steps;
    forall k | 0 <= k < |longer| && longer[k].Begin?
      ensures CanBegin(Run(INITIAL, longer[..k]), longer[k].h, longer[k].now)
    {
      assert longer[..k] == steps[..k];
    }
  }

  /** `w` after the task at position `i` has collected its mail. */
  ghost function Collected(w: World, i: nat): World
    requires i < |w.tasks|
  {
    var t := w.tasks[i];
    World(w.tasks[i := t.(pending := t.pending + Select(w.mailbox, t.id))], Reject(w.mailbox, t.id), w.lastId)
  }

  lemma IsCollected(w: World, w': World, i: nat)
    requires |w'.tasks| == |w.tasks| && i < |w.tasks|
    requires forall j :: 0 <= j < |w.tasks| && j != i ==> w'.tasks[j] == w.tasks[j]
    requires w'.tasks[i] == w.tasks[i].(pending := w.tasks[i].pending + Select(w.mailbox, w.tasks[i].id))
    requires w'.mailbox == Reject(w.mailbox, w.tasks[i].id) && w'.lastId == w.lastId
    ensures w' == Collected(w, i)
  {
  }

  /** `w` after a store into the fields of the task at position `i`. */
  ghost function Stored(w: World, i: nat, active: bool, prio: Priority, sTicks: nat, nTicks: nat, eTicks: nat): World
    requires i < |w.tasks|
  {
    w.(tasks := w.tasks[i :=
      w.tasks[i].(active := active, prio := prio, sTicks := sTicks, nTicks := nTicks, eTicks := eTicks)])
  }

  lemma StoredIs(w: World, i: nat, active: bool, prio: Priority, sTicks: nat, nTicks: nat, eTicks: nat, s: Step)
    requires !s.Create? && !s.Send? && !s.Delete? && !s.Begin? && Find(w.tasks, s.h) == i < |w.tasks|
    requires Updated(w.tasks[i], s, w.mailbox) ==
      w.tasks[i].(active := active, prio := prio, sTicks := sTicks, nTicks := nTicks, eTicks := eTicks)
    ensures Stored(w, i, active, prio, sTicks, nTicks, eTicks) == Apply(w, s)
  {
    ApplyAt(w, s, i);
  }

  /** `w` after the task at position `i` has flushed its mail. */
  ghost function Flushed(w: World, i: nat): World
    requires i < |w.tasks|
  {
    w.(tasks := w.tasks[i := w.tasks[i].(pending := [])])
  }

  lemma FlushedIs(w: World, i: nat, h: nat)
    requires Find(w.tasks, h) == i < |w.tasks|
    ensures Flushed(w, i) == Apply(w, Flush(h))
  {
    ApplyAt(w, Flush(h), i);
  }

  /** Reload, collection and snapshot together are the step `Begin`. */
  lemma IsBegin(w: World, i: nat, w1: World, w2: World, w3: World, now: nat)
    requires WellFormed(w) && i < |w.tasks|
    requires var t := w.tasks[i]; w1 == Stored(w, i, t.active, t.prio, t.sTicks, Counter(now), t.eTicks)
    requires w2 == Collected(w1, i)
    requires var t := w2.tasks[i]; w3 == Stored(w2, i, t.active, t.prio, t.sTicks, t.nTicks, Counter(now))
    ensures w3 == Apply(w, Begin(w.tasks[i].id, now))
  {
    FindAt(w, i);
  }

  class Scheduler {
    const tasks: Tasks
    const mailbox: Mailbox
    const clock: Clock
    var lastId: nat
    ghost var repr: set<object>
    const history: History

    ghost function Model(): World
      reads this, tasks, mailbox, tasks.nodes, set t | t in tasks.nodes :: t.inbox
    {
      World(TaskValues(tasks.nodes), Values(mailbox.nodes), lastId)
    }

    ghost predicate Footprint()
      reads this, repr
    {
      && tasks in repr && mailbox in repr && this !in repr && clock !in repr && history !in repr
      && (forall i {:trigger tasks.nodes[i]} :: 0 <= i < |tasks.nodes| ==>
        tasks.nodes[i] in repr && tasks.nodes[i].inbox in repr)
      && Nodes(mailbox.nodes) <= repr
      && (forall i {:trigger tasks.nodes[i].inbox} :: 0 <= i < |tasks.nodes| ==>
        Nodes(tasks.nodes[i].inbox.nodes) <= repr)
    }

    /** The linked structure: both lists, and an inbox of its own for every task. Fewer than 2^16
        messages wait at a time. */
    ghost predicate Shape()
      reads this, repr
    {
      Footprint() && tasks.Valid() && mailbox.Valid() && |mailbox.nodes| < COUNTS && Inboxes()
    }

    ghost predicate Inboxes()
      requires Footprint()
      reads this, repr
    {
      && (forall i {:trigger tasks.nodes[i].inbox} :: 0 <= i < |tasks.nodes| ==> tasks.nodes[i].inbox.Valid())
      && (forall i, j {:trigger tasks.nodes[i].inbox, tasks.nodes[j].inbox} ::
           0 <= i < j < |tasks.nodes| ==> tasks.nodes[i].inbox != tasks.nodes[j].inbox)
    }

    /** The structure, and a history of steps that leads to it. */
    ghost predicate Valid()
      reads this, repr, clock, history
    {
      Shape() && Explains(history.steps, clock.now, Model())
    }

    constructor ()
      ensures Valid() && fresh(repr) && fresh(clock) && fresh(history) && history.steps == []
    {
      hide Valid;
      tasks := new Tasks();
      mailbox := new Mailbox();
      clock := new Clock();
      lastId := 0;
      history := new History();
      new;
      repr := {tasks, mailbox};
      EmptyIsValid();
    }

    lemma EmptyIsValid()
      requires tasks.Valid() && mailbox.Valid() && tasks.nodes == [] && mailbox.nodes == [] && lastId == 0
      requires repr == {tasks, mailbox} && clock !in repr && history !in repr && history.steps == []
      ensures Valid()
    {
      hide Explains, Tasks.Valid, Mailbox.Valid;
      StartExplained(clock.now);
      assert TaskValues(tasks.nodes) == [] && Values(mailbox.nodes) == [];
    }

    lemma ValidIsWellFormed()
      requires Valid()
      ensures WellFormed(Model())
    {
      RunKeepsWellFormed(INITIAL, history.steps);
    }

    /** However the operations were called: everything ever sent to `h` has been taken out for it, is
        in the inbox of its task, or waits in the mailbox, once and in sending order. */
    lemma Delivers(h: nat)
      requires Valid()
      ensures Taken(INITIAL, history.steps, h) + (Pending(Model(), h) + Select(Values(mailbox.nodes), h)) ==
        Sent(history.steps, h)
    {
      hide Shape, Sent, Taken, Values;
      RunConserves(INITIAL, history.steps, h);
    }

    /** However the operations were called: dispatches `i` and `j` of a task, with no reload of it in
        between, are its period apart in real ticks. */
    lemma SpacesDispatches(i: nat, j: nat)
      requires Valid()
      requires i < j < |history.steps| && history.steps[i].Begin? && history.steps[j].Begin?
      requires history.steps[i].h == history.steps[j].h
      requires forall k :: i < k < j ==> !Reloads(history.steps[k], history.steps[i].h)
      ensures Live(Run(INITIAL, history.steps[..i]), history.steps[i].h)
      ensures history.steps[j].now - history.steps[i].now >=
        TaskOf(Run(INITIAL, history.steps[..i]), history.steps[i].h).sTicks
    {
      DispatchSpacing(INITIAL, history.steps, i, j);
    }

    /** Adds the step that has just been made to the history. */
    ghost method Record(w: World, s: Step)
      requires Shape() && Model() == Apply(w, s)
      requires Explains(history.steps, clock.now, w) && StepOk(w, s, clock.now)
      modifies history
      ensures Valid() && Model() == Apply(w, s) && history.steps == old(history.steps) + [s]
    {
      hide Linked, OwnedBy, Chain, Legal, Run, Mailbox.Shaped, Inboxes;
      ExplainsOneMore(history.steps, clock.now, w, s);
      history.steps := history.steps + [s];
    }

    // ----- Operations on one task ------------------------------------------------------------

    method Locate(h: nat) returns (node: TaskNode?, ghost i: nat)
      requires Valid()
      ensures (node != null) == Live(Model(), h)
      ensures node != null ==> i < |tasks.nodes| && tasks.nodes[i] == node && node.id == h && node in repr
      ensures node != null ==> Find(Model().tasks, h) == i
      ensures this !in repr && history !in repr && clock !in repr
    {
      node, i := tasks.Locate(h);
      FindIs(tasks.nodes, h, i);
    }

    /** Stores into the fields of a node. The structure and every other task stay as they are. */
    method Store(node: TaskNode, ghost i: nat, active: bool, prio: Priority, sTicks: nat, nTicks: nat, eTicks: nat)
      requires Shape() && i < |tasks.nodes| && tasks.nodes[i] == node
      modifies node`active, node`prio, node`sTicks, node`nTicks, node`eTicks
      ensures Shape()
      ensures Model() == Stored(old(Model()), i, active, prio, sTicks, nTicks, eTicks)
    {
      hide Linked, OwnedBy, AllDistinct, Mailbox.Valid, Inbox.Valid;
      node.Assign(active, prio, sTicks, nTicks, eTicks);
    }

    /** Where a listed task is, in the footprint and in the list of values. */
    lemma Placed(i: nat)
      requires Valid() && i < |tasks.nodes|
      ensures tasks.nodes[i] in repr && mailbox.Region(tasks.nodes[i].inbox) <= repr
      ensures this !in repr && history !in repr && clock !in repr
      ensures WellFormed(Model()) && Find(Model().tasks, tasks.nodes[i].id) == i
      ensures |Model().tasks| == |tasks.nodes| && Model().tasks[i] == tasks.nodes[i].Value()
      ensures Model().lastId == Creations(history.steps) < HANDLES
    {
      ValidIsWellFormed();
      HoldsListed(i);
      FindAt(Model(), i);
    }

    lemma NothingYet()
      requires Valid() && history.steps == []
      ensures lastId == 0 && Model() == INITIAL
    {
    }

    lemma IsRun()
      requires Valid()
      ensures Model() == Run(INITIAL, history.steps)
    {
    }

    /** What the links of the list lead to. */
    lemma Followed(i: nat)
      requires Valid() && i <= |tasks.nodes|
      ensures i == 0 ==> tasks.head == NodeAt(tasks.nodes, 0)
      ensures i > 0 ==> tasks.nodes[i - 1].next == NodeAt(tasks.nodes, i)
      ensures NodeAt(tasks.nodes, i) == null ==> i == |tasks.nodes|
      ensures |Model().tasks| == |tasks.nodes| && Model().lastId == lastId < HANDLES
    {
    }

    /** Makes a step that only stores into the fields of a node. */
    method StoreAs(node: TaskNode, ghost i: nat, active: bool, prio: Priority,
                   sTicks: nat, nTicks: nat, eTicks: nat, ghost s: Step)
      requires Valid() && i < |tasks.nodes| && tasks.nodes[i] == node && Find(Model().tasks, node.id) == i
      requires !s.Create? && !s.Send? && !s.Delete? && !s.Begin? && s.h == node.id && StepOk(Model(), s, clock.now)
      requires Updated(node.Value(), s, Model().mailbox) ==
        node.Value().(active := active, prio := prio, sTicks := sTicks, nTicks := nTicks, eTicks := eTicks)
      modifies repr, history
      ensures Valid() && tasks.nodes == old(tasks.nodes)
      ensures Model() == Apply(old(Model()), s) && history.steps == old(history.steps) + [s]
    {
      hide Shape, Explains, Apply, Updated, Find, Stored;
      Placed(i);
      ghost var w := Model();
      StoredIs(w, i, active, prio, sTicks, nTicks, eTicks, s);
      Store(node, i, active, prio, sTicks, nTicks, eTicks);
      Record(w, s);
    }

    method ReadTicks() returns (c: nat)
      requires Valid()
      modifies clock
      ensures Valid() && Model() == old(Model()) && clock.now >= old(clock.now) && c == Counter(clock.now)
    {
      hide Linked, OwnedBy, Chain, Legal, Run;
      c := clock.Read();
    }

    method Suspend(h: nat) returns (ok: bool)
      requires Valid()
      modifies repr, history
      ensures Valid() && repr == old(repr) && clock.now == old(clock.now) && tasks.nodes == old(tasks.nodes)
      ensures ok == Live(old(Model()), h)
      ensures Model() == Apply(old(Model()), Step.Suspend(h)) && history.steps == old(history.steps) + [Step.Suspend(h)]
    {
      hide Shape, Explains;
      ok := false;
      var node, i := Locate(h);
      if node != null {
        StoreAs(node, i, false, node.prio, node.sTicks, node.nTicks, node.eTicks, Step.Suspend(h));
        ok := true;
      } else {
        Record(Model(), Step.Suspend(h));
      }
    }

    method Resume(h: nat) returns (ok: bool)
      requires Valid()
      modifies repr, clock, history
      ensures Valid() && repr == old(repr) && tasks.nodes == old(tasks.nodes) && clock.now >= old(clock.now)
      ensures ok == Live(old(Model()), h)
      ensures Model() == Apply(old(Model()), Step.Resume(h, clock.now))
      ensures history.steps == old(history.steps) + [Step.Resume(h, clock.now)]
    {
      hide Shape, Explains;
      ok := false;
      var node, i := Locate(h);
      if node != null {
        var c := ReadTicks();
        StoreAs(node, i, true, node.prio, node.sTicks, Minus(c, node.sTicks), node.eTicks, Step.Resume(h, clock.now));
        ok := true;
      } else {
        Record(Model(), Step.Resume(h, clock.now));
      }
    }

    method SetPriority(h: nat, prio: Priority) returns (ok: bool)
      requires Valid()
      modifies repr, history
      ensures Valid() && repr == old(repr) && clock.now == old(clock.now) && tasks.nodes == old(tasks.nodes)
      ensures ok == Live(old(Model()), h)
      ensures Model() == Apply(old(Model()), Step.SetPriority(h, prio))
      ensures history.steps == old(history.steps) + [Step.SetPriority(h, prio)]
    {
      hide Shape, Explains;
      ok := false;
      var node, i := Locate(h);
      if node != null {
        StoreAs(node, i, node.active, prio, node.sTicks, node.nTicks, node.eTicks, Step.SetPriority(h, prio));
        ok := true;
      } else {
        Record(Model(), Step.SetPriority(h, prio));
      }
    }

    method SetPeriodicTicks(h: nat, sTicks: nat, run: bool) returns (ok: bool)
      requires Valid()
      modifies repr, clock, history
      ensures Valid() && repr == old(repr) && tasks.nodes == old(tasks.nodes) && clock.now >= old(clock.now)
      ensures ok == Live(old(Model()), h)
      ensures Model() == Apply(old(Model()), SetPeriod(h, sTicks, run, clock.now))
      ensures history.steps == old(history.steps) + [SetPeriod(h, sTicks, run, clock.now)]
    {
      hide Shape, Explains;
      ok := false;
      var node, i := Locate(h);
      if node != null {
        var c := ReadTicks();
        if run {
          c := Minus(c, sTicks);
        }
        StoreAs(node, i, node.active, node.prio, sTicks, c, node.eTicks, SetPeriod(h, sTicks, run, clock.now));
        ok := true;
      } else {
        Record(Model(), SetPeriod(h, sTicks, run, clock.now));
      }
    }

    // ----- Creation and deletion -------------------------------------------------------------

    method Link(node: TaskNode)
      requires Shape() && |tasks.nodes| + 1 < HANDLES && node !in repr && node.inbox !in repr
      requires node.next == null && node.previous == null && node.inbox.Valid() && node.inbox.nodes == []
      modifies this`repr, this`lastId, repr, node
      ensures Shape() && tasks.nodes == old(tasks.nodes) + [node]
      ensures repr == old(repr) + {node, node.inbox}
      ensures Model() == World(old(Model()).tasks + [old(node.Value())], old(Model()).mailbox, node.id)
    {
      hide Tasks.Valid, Mailbox.Valid, Inbox.Valid, Values;
      assert Nodes(node.inbox.nodes) == {};
      tasks.Append(node);
      repr := repr + {node, node.inbox};
      lastId := node.id;
    }

    method Add(active: bool, prio: Priority, sTicks: nat, nTicks: nat, fn: nat) returns (node: TaskNode)
      requires Shape() && |tasks.nodes| + 1 < HANDLES
      modifies this`repr, this`lastId, repr
      ensures Shape() && fresh(repr - old(repr)) && lastId == node.id
      ensures tasks.nodes == old(tasks.nodes) + [node]
      ensures Model() == World(
        old(Model()).tasks + [Task((old(lastId) + 1) % HANDLES, active, prio, sTicks, nTicks, 0, fn, [])],
        old(Model()).mailbox, (old(lastId) + 1) % HANDLES)
    {
      hide Tasks.Valid, Mailbox.Valid, Inbox.Valid, Nodes;
      node := new TaskNode((lastId + 1) % HANDLES, active, prio, sTicks, nTicks, fn);
      Link(node);
    }

    method CreateAt(active: bool, prio: Priority, sTicks: nat, fn: nat, c: nat) returns (h: nat, ghost node: TaskNode)
      requires Valid() && lastId + 1 < HANDLES && c == Counter(clock.now)
      modifies this`repr, this`lastId, repr, history
      ensures Valid() && fresh(repr - old(repr))
      ensures Model() == Apply(old(Model()), Step.Create(active, prio, sTicks, fn, clock.now))
      ensures history.steps == old(history.steps) + [Step.Create(active, prio, sTicks, fn, clock.now)]
      ensures h == lastId && tasks.nodes == old(tasks.nodes) + [node]
    {
      hide Shape, Explains;
      RoomForOne();
      ghost var w, s := Model(), Step.Create(active, prio, sTicks, fn, clock.now);
      var added := Add(active, prio, sTicks, c, fn);
      h, node := added.id, added;
      assert Model() == Apply(w, s);
      Record(w, s);
    }

    lemma RoomForOne()
      requires Valid() && lastId + 1 < HANDLES
      ensures |tasks.nodes| + 1 < HANDLES && this !in repr && history !in repr && clock !in repr
    {
      ValidIsWellFormed();
    }

    /** `hasMemory` says whether memory is found for the node. */
    method Create(active: bool, prio: Priority, sTicks: nat, fn: nat, hasMemory: bool)
      returns (ok: bool, h: nat)
      requires Valid() && lastId + 1 < HANDLES
      modifies this`repr, this`lastId, repr, clock, history
      ensures Valid() && fresh(repr - old(repr)) && clock.now >= old(clock.now)
      ensures ok == hasMemory
      ensures !ok ==> Model() == old(Model()) && history.steps == old(history.steps) && tasks.nodes == old(tasks.nodes)
      ensures ok ==> Model() == Apply(old(Model()), Step.Create(active, prio, sTicks, fn, clock.now))
      ensures ok ==> history.steps == old(history.steps) + [Step.Create(active, prio, sTicks, fn, clock.now)]
      ensures ok ==> h == lastId && old(tasks.nodes) <= tasks.nodes
    {
      hide Shape, Explains;
      ok, h := false, 0;
      if hasMemory {
        RoomForOne();
        var c := ReadTicks();
        ghost var node;
        h, node := CreateAt(active, prio, sTicks, fn, c);
        ok := true;
      }
    }

    // ----- Mail ------------------------------------------------------------------------------

    /** An inbox of the scheduler: that of a task in the list, or of one that has just left it. */
    ghost predicate Holds(inbox: Inbox)
      reads this, repr, inbox, Nodes(inbox.nodes)
    {
      Shape() && inbox.Valid() && inbox in repr && Nodes(inbox.nodes) <= repr
    }

    /** What is outside the objects that moving mail to `inbox` may change. */
    ghost predicate Outside(inbox: Inbox, region: set<object>)
      requires Footprint()
      reads this, repr
    {
      && this !in region && tasks !in region
      && (forall j {:trigger tasks.nodes[j]} :: 0 <= j < |tasks.nodes| ==> tasks.nodes[j] !in region)
      && (forall j {:trigger tasks.nodes[j].inbox} :: 0 <= j < |tasks.nodes| && tasks.nodes[j].inbox != inbox ==>
           tasks.nodes[j].inbox !in region && Nodes(tasks.nodes[j].inbox.nodes) !! region)
    }

    /** No message is in two places. */
    lemma Apart(inbox: Inbox)
      requires Holds(inbox)
      ensures mailbox.Region(inbox) <= repr && Outside(inbox, mailbox.Region(inbox))
    {
      forall j | 0 <= j < |tasks.nodes| && tasks.nodes[j].inbox != inbox
        ensures Nodes(tasks.nodes[j].inbox.nodes) !! Nodes(mailbox.nodes)
        ensures Nodes(tasks.nodes[j].inbox.nodes) !! Nodes(inbox.nodes)
      {
        var other := tasks.nodes[j].inbox;
        OwnersDiffer(other.nodes, other, mailbox.nodes, mailbox);
        OwnersDiffer(other.nodes, other, inbox.nodes, inbox);
      }
    }

    /** Moves the mail for `h` from the mailbox to `inbox`. */
    method MoveMail(h: nat, inbox: Inbox, ghost region: set<object>)
      requires Holds(inbox) && region == mailbox.Region(inbox)
      modifies region
      ensures Holds(inbox) && mailbox.Region(inbox) <= region
      ensures mailbox.nodes == Remaining(old(mailbox.nodes), h)
      ensures inbox.nodes == old(inbox.nodes) + Matching(old(mailbox.nodes), h)
    {
      Apart(inbox);
      SplitWithin(mailbox.nodes, h);
      NodesConcat(inbox.nodes, Matching(mailbox.nodes, h));
      mailbox.Extract(h, inbox, region);
      assert Footprint();
      assert Inboxes();
    }

    /** Frees everything in `inbox`. */
    method FlushInbox(inbox: Inbox, ghost region: set<object>)
      requires Holds(inbox) && mailbox.Region(inbox) <= region && Outside(inbox, region)
      modifies region
      ensures Holds(inbox) && inbox.nodes == [] && mailbox.nodes == old(mailbox.nodes)
      ensures forall m :: m in old(inbox.nodes) ==> m.memory == Freed
    {
      hide Linked, Mailbox.Shaped;
      OwnersDiffer(inbox.nodes, inbox, mailbox.nodes, mailbox);
      inbox.Flush();
      assert Nodes(inbox.nodes) == {};
      assert Footprint();
      assert Inboxes();
    }

    /** Collects the mail of a task: its inbox grows by every message for its handle. */
    method Collect(node: TaskNode, ghost i: nat)
      requires Shape() && i < |tasks.nodes| && tasks.nodes[i] == node
      modifies mailbox.Region(node.inbox)
      ensures Shape() && |mailbox.nodes| <= |old(mailbox.nodes)|
      ensures Model() == Collected(old(Model()), i)
    {
      hide Linked, OwnedBy;
      ghost var w, mail, inbox0 := Model(), mailbox.nodes, node.inbox.nodes;
      ValuesOfMatching(mail, node.id);
      ValuesOfRemaining(mail, node.id);
      ValuesConcat(inbox0, Matching(mail, node.id));
      HoldsListed(i);
      Apart(node.inbox);
      MoveMail(node.id, node.inbox, mailbox.Region(node.inbox));
      IsCollected(w, Model(), i);
    }

    // ----- Deletion --------------------------------------------------------------------------

    /** The list and its nodes: what unlinking a task may change. */
    ghost function Links(): set<object>
      reads tasks
    {
      {tasks} + (set t: object | t in tasks.nodes)
    }

    /** No mail is among them. */
    lemma MailOffLinks(region: set<object>)
      requires Shape() && region == Links()
      ensures region <= repr && this !in region && mailbox !in region && Nodes(mailbox.nodes) !! region
      ensures forall j {:trigger tasks.nodes[j].inbox} :: 0 <= j < |tasks.nodes| ==>
        tasks.nodes[j].inbox !in region && Nodes(tasks.nodes[j].inbox.nodes) !! region
    {
    }

    method UnlinkNode(node: TaskNode, ghost i: nat, ghost region: set<object>)
      requires Shape() && i < |tasks.nodes| && tasks.nodes[i] == node && region == Links()
      modifies region
      ensures Shape() && tasks.nodes == Without(old(tasks.nodes), i)
      ensures forall k {:trigger old(tasks.nodes)[k]} :: 0 <= k < |old(tasks.nodes)| ==>
        old(tasks.nodes)[k].Value() == old(tasks.nodes[k].Value())
    {
      hide Inbox.Valid, Mailbox.Valid, Tasks.Valid, Chain;
      MailOffLinks(region);
      ghost var s := tasks.nodes;
      tasks.Unlink(node, i);
      assert forall k {:trigger s[k]} :: 0 <= k < |s| ==> s[k].Value() == old(s[k].Value());
      assert forall k {:trigger tasks.nodes[k]} :: 0 <= k < |tasks.nodes| ==>
        tasks.nodes[k] == s[if k < i then k else k + 1];
      assert Footprint();
      assert Inboxes();
    }

    /** Takes a task out of the list. Its inbox stays as it is, no longer that of any listed task. */
    method TakeOut(node: TaskNode, ghost i: nat, ghost region: set<object>)
      requires Shape() && i < |tasks.nodes| && tasks.nodes[i] == node && region == Links()
      modifies region
      ensures Shape() && tasks.nodes == Without(old(tasks.nodes), i)
      ensures forall k {:trigger old(tasks.nodes)[k]} :: 0 <= k < |old(tasks.nodes)| ==>
        old(tasks.nodes)[k].Value() == old(tasks.nodes[k].Value())
      ensures mailbox.nodes == old(mailbox.nodes) && node.inbox.nodes == old(node.inbox.nodes)
      ensures Holds(node.inbox) && mailbox.Region(node.inbox) <= repr
      ensures forall j {:trigger tasks.nodes[j].inbox} :: 0 <= j < |tasks.nodes| ==> tasks.nodes[j].inbox != node.inbox
    {
      ghost var s := tasks.nodes;
      MailOffLinks(region);
      HoldsListed(i);
      assert s[i].inbox == node.inbox;
      assert forall j {:trigger s[j].inbox} :: 0 <= j < |s| && j != i ==> s[j].inbox != node.inbox;
      UnlinkNode(node, i, region);
      assert forall k {:trigger tasks.nodes[k].inbox} :: 0 <= k < |tasks.nodes| ==>
        tasks.nodes[k].inbox == s[if k < i then k else k + 1].inbox;
    }

    lemma HoldsListed(i: nat)
      requires Shape() && i < |tasks.nodes|
      ensures Holds(tasks.nodes[i].inbox) && mailbox.Region(tasks.nodes[i].inbox) <= repr
      ensures tasks.nodes[i] in repr && tasks in repr && this !in repr && history !in repr && clock !in repr
    {
      assert tasks.nodes[i].inbox in repr;
    }

    /** Destroys the mail for `h`: what is in `inbox` and what is still in the mailbox, each message
        freed once. */
    method DiscardMail(h: nat, inbox: Inbox, ghost region: set<object>)
      requires Holds(inbox) && region == mailbox.Region(inbox)
      modifies region
      ensures Holds(inbox) && inbox.nodes == []
      ensures mailbox.nodes == Remaining(old(mailbox.nodes), h)
      ensures forall m :: m in old(inbox.nodes) + Matching(old(mailbox.nodes), h) ==> m.memory == Freed
    {
      Apart(inbox);
      MoveMail(h, inbox, region);
      assert Outside(inbox, region);
      FlushInbox(inbox, region);
    }

    /** The same for a task that has left the list, which then has no mail at all. */
    method DestroyMail(node: TaskNode)
      requires Holds(node.inbox)
      requires forall j {:trigger tasks.nodes[j].inbox} :: 0 <= j < |tasks.nodes| ==> tasks.nodes[j].inbox != node.inbox
      modifies mailbox.Region(node.inbox)
      ensures Shape()
      ensures Model() == old(Model()).(mailbox := Reject(old(Model()).mailbox, node.id))
      ensures forall m :: m in old(node.inbox.nodes) + Matching(old(mailbox.nodes), node.id) ==> m.memory == Freed
    {
      hide Linked, OwnedBy, Chain, Distinct, AllDistinct;
      ghost var region, nodes := mailbox.Region(node.inbox), tasks.nodes;
      ValuesOfRemaining(mailbox.nodes, node.id);
      Apart(node.inbox);
      DiscardMail(node.id, node.inbox, region);
      assert forall j {:trigger nodes[j]} :: 0 <= j < |nodes| ==> nodes[j].Value() == old(nodes[j].Value());
    }

    method DeleteNode(node: TaskNode, ghost i: nat)
      requires Shape() && i < |tasks.nodes| && tasks.nodes[i] == node
      modifies repr
      ensures Shape() && tasks.nodes == Without(old(tasks.nodes), i)
      ensures Model() ==
        old(Model()).(tasks := Without(old(Model()).tasks, i), mailbox := Reject(old(Model()).mailbox, node.id))
      ensures forall m :: m in old(node.inbox.nodes) + Matching(old(mailbox.nodes), node.id) ==> m.memory == Freed
    {
      hide Shape;
      MailOffLinks(Links());
      ghost var w := Model();
      TakeOut(node, i, Links());
      assert Model().tasks == Without(w.tasks, i);
      DestroyMail(node);
    }

    method Delete(h: nat) returns (ok: bool)
      requires Valid()
      modifies repr, history
      ensures Valid() && repr == old(repr) && clock.now == old(clock.now)
      ensures ok == Live(old(Model()), h)
      ensures Model() == Apply(old(Model()), Step.Delete(h)) && history.steps == old(history.steps) + [Step.Delete(h)]
      ensures tasks.nodes == if ok then Without(old(tasks.nodes), Find(old(Model()).tasks, h)) else old(tasks.nodes)
      ensures ok ==>
        forall m :: m in old(tasks.nodes[Find(Model().tasks, h)].inbox.nodes) + Matching(old(mailbox.nodes), h) ==>
          m.memory == Freed
    {
      hide Shape, Explains, Find, Reject, Matching;
      ghost var w := Model();
      MatchingAreListed(mailbox.nodes, h);
      ok := false;
      var node, i := Locate(h);
      if node != null {
        DeleteNode(node, i);
        ok := true;
      }
      Record(w, Step.Delete(h));
    }

    // ----- Messages --------------------------------------------------------------------------

    /** `nodeMemory` and `dataMemory` say whether memory is found for the node and for the bytes. */
    method SendMsg(src: nat, dst: nat, data: seq<bv8>, nodeMemory: bool, dataMemory: bool)
      returns (ok: bool, ghost node: Message?)
      requires Valid() && mailbox.count + 1 < COUNTS
      modifies this`repr, repr, history
      ensures Valid() && clock.now == old(clock.now) && fresh(repr - old(repr)) && tasks.nodes == old(tasks.nodes)
      ensures ok == (nodeMemory && dataMemory)
      ensures !ok ==> Model() == old(Model()) && history.steps == old(history.steps)
      ensures nodeMemory ==> node != null && node.memory == if dataMemory then Allocated else Freed
      ensures ok ==> Model() == Apply(old(Model()), Send(src, dst, data))
      ensures ok ==> history.steps == old(history.steps) + [Send(src, dst, data)]
    {
      hide Shape, Explains;
      ok, node := false, null;
      if nodeMemory {
        RoomForMail();
        ghost var w := Model();
        var m := new Message(src, dst, data, mailbox);
        node := m;
        if dataMemory {
          m.TakeData();
          Post(m);
          ok := true;
          Record(w, Send(src, dst, data));
        } else {
          m.FreeNode();
        }
      }
    }

    lemma RoomForMail()
      requires Valid() && mailbox.count + 1 < COUNTS
      ensures |mailbox.nodes| + 1 < COUNTS && this !in repr && history !in repr && clock !in repr
      ensures forall m :: m in mailbox.nodes ==> m in repr
    {
    }

    /** Takes objects into the footprint. */
    ghost method Grow(objects: set<object>)
      requires Shape() && this !in objects && clock !in objects && history !in objects
      modifies this`repr
      ensures Shape() && repr == old(repr) + objects && Model() == old(Model())
    {
      hide Linked, OwnedBy, Chain;
      repr := repr + objects;
    }

    /** Puts a message at the end of the mailbox. */
    method InsertMessage(m: Message, ghost region: set<object>)
      requires Shape() && |mailbox.nodes| + 1 < COUNTS && m in repr && m !in mailbox.nodes
      requires m.next == null && m.previous == null && m.owner == mailbox && m.memory == Allocated
      requires region == {mailbox, m} + Nodes(mailbox.nodes)
      modifies region
      ensures Shape() && mailbox.nodes == old(mailbox.nodes) + [m]
      ensures forall k {:trigger tasks.nodes[k]} :: 0 <= k < |tasks.nodes| ==>
        tasks.nodes[k].Value() == old(tasks.nodes[k].Value())
    {
      hide Linked, OwnedBy, Chain;
      MailApart(m);
      NodesConcat(mailbox.nodes, [m]);
      assert Nodes([m]) == {m};
      mailbox.Insert(m);
      assert Footprint();
      assert Inboxes();
    }

    /** A message owned by the mailbox is in no inbox. */
    lemma MailApart(m: Message)
      requires Shape() && m.owner == mailbox
      ensures var region: set<object> := {mailbox, m} + Nodes(mailbox.nodes);
        && this !in region && tasks !in region
        && (forall j {:trigger tasks.nodes[j]} :: 0 <= j < |tasks.nodes| ==> tasks.nodes[j] !in region)
        && (forall j {:trigger tasks.nodes[j].inbox} :: 0 <= j < |tasks.nodes| ==>
             tasks.nodes[j].inbox !in region && Nodes(tasks.nodes[j].inbox.nodes) !! region)
    {
      forall j | 0 <= j < |tasks.nodes|
        ensures Nodes(tasks.nodes[j].inbox.nodes) !! Nodes(mailbox.nodes)
        ensures m !in tasks.nodes[j].inbox.nodes
      {
        var inbox := tasks.nodes[j].inbox;
        OwnersDiffer(inbox.nodes, inbox, mailbox.nodes, mailbox);
        assert forall k :: 0 <= k < |inbox.nodes| ==> inbox.nodes[k].owner == inbox;
      }
    }

    method Post(m: Message)
      requires Shape() && |mailbox.nodes| + 1 < COUNTS && m !in repr
      requires m.next == null && m.previous == null && m.owner == mailbox && m.memory == Allocated
      modifies this`repr, repr, m
      ensures Shape() && repr == old(repr) + {m} && tasks.nodes == old(tasks.nodes) && m.memory == Allocated
      ensures Model() == old(Model()).(mailbox := old(Model()).mailbox + [m.Value()])
    {
      hide Tasks.Valid;
      ghost var w := Model();
      ValuesOfSnoc(mailbox.nodes, m);
      MailApart(m);
      assert Nodes(mailbox.nodes) <= repr;
      Grow({m});
      InsertMessage(m, {mailbox, m} + Nodes(mailbox.nodes));
      assert TaskValues(tasks.nodes) == w.tasks;
    }

    method FlushMail(node: TaskNode, ghost i: nat)
      requires Shape() && i < |tasks.nodes| && tasks.nodes[i] == node
      modifies mailbox.Region(node.inbox)
      ensures Shape() && tasks.nodes == old(tasks.nodes)
      ensures Model() == Flushed(old(Model()), i)
      ensures forall m :: m in old(node.inbox.nodes) ==> m.memory == Freed
    {
      hide Linked, OwnedBy, Chain, Mailbox.Shaped, AllDistinct, Distinct, Tasks.Valid;
      ghost var region, nodes := mailbox.Region(node.inbox), tasks.nodes;
      HoldsListed(i);
      Apart(node.inbox);
      FlushInbox(node.inbox, region);
      assert forall j {:trigger nodes[j]} :: 0 <= j < |nodes| && j != i ==> nodes[j].Value() == old(nodes[j].Value());
    }

    /** What a task function does when it flushes the messages it was called with. */
    method FlushMsgs(h: nat)
      requires Valid()
      modifies repr, history
      ensures Valid() && repr == old(repr) && clock.now == old(clock.now) && tasks.nodes == old(tasks.nodes)
      ensures Model() == Apply(old(Model()), Step.Flush(h)) && history.steps == old(history.steps) + [Step.Flush(h)]
      ensures Live(old(Model()), h) ==>
        forall m :: m in old(tasks.nodes[Find(Model().tasks, h)].inbox.nodes) ==> m.memory == Freed
    {
      hide Shape, Explains, Holds, Find, Flushed, Mailbox.Region;
      ghost var w := Model();
      var node, i := Locate(h);
      if node != null {
        HoldsListed(i);
        FlushMail(node, i);
        FlushedIs(w, i, h);
      }
      Record(w, Step.Flush(h));
    }

    // ----- Dispatch --------------------------------------------------------------------------

    /** What happens before a task function is called at tick reading `c`: the count is reloaded, the
        mail is collected, and the reading is kept. */
    method Begin(node: TaskNode, ghost i: nat, c: nat)
      requires Valid() && i < |tasks.nodes| && tasks.nodes[i] == node
      requires node.active && node.fn != 0 && Minus(c, node.nTicks) >= node.sTicks && c == Counter(clock.now)
      modifies repr, history
      ensures Valid() && repr == old(repr) && tasks.nodes == old(tasks.nodes)
      ensures Model() == Apply(old(Model()), Step.Begin(node.id, clock.now))
      ensures history.steps == old(history.steps) + [Step.Begin(node.id, clock.now)]
    {
      hide Shape, Explains, WellFormed, Find, Stored, Collected, Apply, Holds, OwnMail, Links;
      hide Mailbox.Valid, Inbox.Valid, Tasks.Valid;
      HoldsListed(i);
      Placed(i);
      ghost var w := Model();
      assert CanBegin(w, node.id, clock.now);
      Store(node, i, node.active, node.prio, node.sTicks, c, node.eTicks);
      ghost var w1 := Model();
      Collect(node, i);
      ghost var w2 := Model();
      Store(node, i, node.active, node.prio, node.sTicks, node.nTicks, c);
      IsBegin(w, i, w1, w2, Model(), clock.now);
      Record(w, Step.Begin(node.id, clock.now));
    }

    /** What happens after the task function has returned. */
    method End(node: TaskNode, ghost i: nat)
      requires Valid() && i < |tasks.nodes| && tasks.nodes[i] == node
      modifies repr, clock, history
      ensures Valid() && repr == old(repr) && tasks.nodes == old(tasks.nodes) && clock.now >= old(clock.now)
      ensures Model() == Apply(old(Model()), Step.End(node.id, clock.now))
      ensures history.steps == old(history.steps) + [Step.End(node.id, clock.now)]
    {
      hide Shape, Explains, WellFormed, Valid, Find;
      Placed(i);
      var c := ReadTicks();
      StoreAs(node, i, node.active, node.prio, node.sTicks, node.nTicks, Minus(c, node.eTicks),
              Step.End(node.id, clock.now));
    }
  }
}

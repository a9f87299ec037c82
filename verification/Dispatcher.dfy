/** The main loop of the scheduler: the pass over the priority cycle, the calls of the task
    functions, and the idle task.

    A pass is proved to make visits that SchedulerPass allows, so what is proved there about
    dispatches in a pass holds of the loops here.
 */
module Dispatcher {
  import opened Ticks
  import opened SchedulerModel
  import opened SchedulerPass
  import opened PassOrder
  import opened IdleAccount
  import opened MessageLists
  import opened TaskList
  import opened Scheduler

  /** A call that a task function can make. The flags of `CreateTask` and `SendMsg` say whether
      memory is found. */
  datatype Call =
    | CreateTask(active: bool, prio: Priority, sTicks: nat, fn: nat, hasMemory: bool)
    | DeleteTask(h: nat)
    | SetPriorityOf(h: nat, prio: Priority)
    | SuspendTask(h: nat)
    | ResumeTask(h: nat)
    | SetPeriodOf(h: nat, sTicks: nat, run: bool)
    | SendTo(src: nat, dst: nat, data: seq<bv8>, nodeMemory: bool, dataMemory: bool)
    | FlushOwn

  /** The steps a task function may make: not those of the main loop, and no deletion of itself. */
  ghost predicate OwnSteps(steps: seq<Step>, me: nat) {
    forall s :: s in steps ==> !s.Begin? && !s.End? && s != Delete(me)
  }

  /** How far a task function has come: `steps` since it was called at `at` in state `w0`. */
  ghost predicate Called(w0: World, h0: seq<Step>, me: nat, at: nat,
                         steps: seq<Step>, w: World, h: seq<Step>, now: nat)
  {
    && h == h0 + steps && w == Run(w0, steps)
    && OwnSteps(steps, me) && Within(at, steps, now)
  }

  lemma CalledAgain(w0: World, h0: seq<Step>, me: nat, at: nat, steps: seq<Step>, w: World, h: seq<Step>, now: nat,
                    made: seq<Step>, w': World, h': seq<Step>, now': nat)
    requires Called(w0, h0, me, at, steps, w, h, now) && Called(w, h, me, now, made, w', h', now')
    ensures Called(w0, h0, me, at, steps + made, w', h', now')
  {
    hide Run, Within;
    RunConcat(w0, steps, made);
    WithinConcat(at, steps, now, made, now');
    assert h0 + steps + made == h0 + (steps + made);
  }

  lemma CalledOnce(w: World, h: seq<Step>, me: nat, at: nat, s: Step, now: nat)
    requires !s.Begin? && !s.End? && s != Delete(me) && at <= now
    requires Timed(s) ==> s.now == now
    ensures Called(w, h, me, at, [s], Apply(w, s), h + [s], now)
  {
    RunOne(w, [], s);
    assert [] + [s] == [s] && [s][..0] == [];
  }

  lemma CalledNot(w: World, h: seq<Step>, me: nat, at: nat, now: nat)
    requires at <= now
    ensures Called(w, h, me, at, [], w, h, now)
  {
  }

  /** A dispatch as one run: the begin, what the task function did, and the end. */
  lemma DispatchIsRun(w: World, h: seq<Step>, id: nat, at: nat, body: seq<Step>, w2: World, h2: seq<Step>, end: nat)
    requires Called(Apply(w, Begin(id, at)), h + [Begin(id, at)], id, at, body, w2, h2, end)
    ensures h2 == h + ([Begin(id, at)] + body) && w2 == Run(w, [Begin(id, at)] + body)
  {
    RunOne(w, [], Begin(id, at));
    assert [] + [Begin(id, at)] == [Begin(id, at)];
    RunConcat(w, [Begin(id, at)], body);
    assert h + [Begin(id, at)] + body == h + ([Begin(id, at)] + body);
  }

  lemma EndIsRun(w: World, h: seq<Step>, steps: seq<Step>, s: Step)
    ensures Run(w, steps + [s]) == Apply(Run(w, steps), s) && (h + steps) + [s] == h + (steps + [s])
  {
    RunOne(w, steps, s);
  }

  /** Without creations, no fewer tasks leave the part of the list from `h` on than come to it. */
  lemma {:induction false} RestShrinks(w: World, steps: seq<Step>, h: nat)
    requires WellFormed(w) && Creations(steps) == 0 && Live(w, h) && Delete(h) !in steps
    ensures Live(Run(w, steps), h)
    ensures |Run(w, steps).tasks| - Find(Run(w, steps).tasks, h) <= |w.tasks| - Find(w.tasks, h)
  {
    if steps == [] {
    } else {
      var before, s := steps[..|steps| - 1], steps[|steps| - 1];
      assert s in steps && Delete(h) !in before;
      RestShrinks(w, before, h);
      RunKeepsWellFormed(w, before);
      StepShrinks(Run(w, before), s, h);
    }
  }

  lemma StepShrinks(w: World, s: Step, h: nat)
    requires WellFormed(w) && !s.Create? && Live(w, h) && s != Delete(h)
    ensures Live(Apply(w, s), h)
    ensures |Apply(w, s).tasks| - Find(Apply(w, s).tasks, h) <= |w.tasks| - Find(w.tasks, h)
  {
    if !s.Send? && Live(w, s.h) {
      if s.Delete? {
        FindAfterRemoval(w, Find(w.tasks, s.h), h);
      } else {
        FindAfterPut(w, Updated(TaskOf(w, s.h), s, w.mailbox), h);
      }
    }
  }

  lemma NothingElapsed()
    ensures Elapsed([]) == 0
  {
  }

  lemma OneMoreElapsed(ts: seq<Task>, i: nat, total: nat)
    requires 1 <= i < |ts| && total == Elapsed(ts[1..i]) % WRAP
    ensures (total + ts[i].eTicks) % WRAP == Elapsed(ts[1..i + 1]) % WRAP
  {
    var sum := Elapsed(ts[1..i]);
    assert ts[1..i + 1][..i - 1] == ts[1..i];
    ModShift(sum + ts[i].eTicks, total + ts[i].eTicks, sum / WRAP);
  }

  /** A dispatch made by the loop is a visit of the model, and brings the end of the scan nearer. */
  lemma IsVisit(c: Cursor, p: Priority, v: Visit, mid: World, hmid: seq<Step>, now: nat, c': Cursor)
    requires WellFormed(c.w) && c.i < |c.w.tasks| && c.now <= v.at && Runs(c.w.tasks[c.i], p, v.at)
    requires c.w.lastId == Creations(c.steps) && Creations(hmid) < HANDLES
    requires var id := c.w.tasks[c.i].id;
      && now <= v.end
      && Called(Apply(c.w, Begin(id, v.at)), c.steps + [Begin(id, v.at)], id, v.at, v.body, mid, hmid, now)
      && c'.steps == hmid + [End(id, v.end)] && c'.w == Apply(mid, End(id, v.end))
      && c'.i == Find(c'.w.tasks, id) + 1 && c'.now == v.end
    ensures VisitOk(c, p, v) && c' == AfterVisit(c, p, v) && Nearer(c, c')
  {
    var t := c.w.tasks[c.i];
    var begin, end := [Begin(t.id, v.at)], [End(t.id, v.end)];
    DispatchIsRun(c.w, c.steps, t.id, v.at, v.body, mid, hmid, now);
    EndIsRun(c.w, c.steps, begin + v.body, End(t.id, v.end));
    VisitCreations(t, p, v);
    CreationsConcat(c.steps, begin + v.body);
    CreationsConcat(begin, v.body);
    assert begin[..0] == [];
    WithinLater(v.at, v.body, now, v.end);
    VisitNearer(c, p, v);
  }

  /** A measure of what is left of a scan: either handles were given out, or the rest is shorter. */
  predicate Nearer(c: Cursor, c': Cursor) {
    c'.w.lastId > c.w.lastId || (c'.w.lastId == c.w.lastId && |c'.w.tasks| - c'.i < |c.w.tasks| - c.i)
  }

  lemma VisitNearer(c: Cursor, p: Priority, v: Visit)
    requires WellFormed(c.w) && VisitOk(c, p, v)
    ensures Nearer(c, AfterVisit(c, p, v))
  {
    var t := c.w.tasks[c.i];
    var steps := VisitSteps(t, p, v);
    VisitKeeps(c, p, v);
    FindAt(c.w, c.i);
    if Creations(steps) == 0 {
      RestShrinks(c.w, steps, t.id);
    }
  }

  /** A visit that finds nothing to do, at a check no earlier than the cursor. */
  lemma IsPassedOver(c: Cursor, p: Priority, v: Visit)
    requires WellFormed(c.w) && c.i < |c.w.tasks| && c.now <= v.at && !Runs(c.w.tasks[c.i], p, v.at)
    ensures VisitOk(c, p, v) && AfterVisit(c, p, v) == Cursor(c.w, c.i + 1, c.steps, v.at)
    ensures Nearer(c, AfterVisit(c, p, v))
  {
    FindAt(c.w, c.i);
  }

  /** A visit does not depend on how long before its check the last reading was. */
  lemma CheckedLater(c: Cursor, c1: Cursor, p: Priority, v: Visit)
    requires c1 == c.(now := c1.now) && c.now <= c1.now && VisitOk(c1, p, v)
    ensures VisitOk(c, p, v) && AfterVisit(c, p, v) == AfterVisit(c1, p, v)
    ensures Nearer(c1, AfterVisit(c1, p, v)) ==> Nearer(c, AfterVisit(c, p, v))
  {
  }

  lemma ScanGoesOn(c0: Cursor, p: Priority, vs: seq<Visit>, v: Visit)
    requires ScanOk(c0, p, vs) && VisitOk(ScanEnd(c0, p, vs), p, v)
    ensures ScanOk(c0, p, vs + [v]) && ScanEnd(c0, p, vs + [v]) == AfterVisit(ScanEnd(c0, p, vs), p, v)
  {
    assert (vs + [v])[..|vs|] == vs;
  }

  lemma {:induction false} PassAdvancesTime(c0: Cursor, vss: seq<seq<Visit>>)
    requires |vss| <= |CYCLE| && PassOk(c0, vss)
    ensures c0.now <= PassEnd(c0, vss).now
  {
    if vss == [] {
    } else {
      var n := |vss| - 1;
      PassAdvancesTime(c0, vss[..n]);
      ScanAdvancesTime(Rewind(PassEnd(c0, vss[..n])), CYCLE[n], vss[n]);
    }
  }

  lemma PassGoesOn(c0: Cursor, vss: seq<seq<Visit>>, vs: seq<Visit>)
    requires |vss| < |CYCLE| && PassOk(c0, vss)
    requires ScanOk(Rewind(PassEnd(c0, vss)), CYCLE[|vss|], vs)
    requires var c := ScanEnd(Rewind(PassEnd(c0, vss)), CYCLE[|vss|], vs); c.i >= |c.w.tasks|
    ensures PassOk(c0, vss + [vs]) && PassEnd(c0, vss + [vs]) == ScanEnd(Rewind(PassEnd(c0, vss)), CYCLE[|vss|], vs)
  {
    assert (vss + [vs])[..|vss|] == vss;
  }

  /** What a pass from `w0` at time `start`, after `n` steps, owes every task by time `end`. A task that
      was ready throughout has been dispatched, unless it was deleted or suspended, or given another
      priority or a period with which it was not; and a task that kept its priority has been dispatched
      at most three times, twice or once. And the priorities have been served in order. */
  ghost predicate Served(w0: World, n: nat, start: nat, steps: seq<Step>, end: nat) {
    && n <= |steps|
    && Ordered(w0, start, steps[n..], end)
    && (forall h, q :: Ready(w0, h, q, start, end) ==>
          exists k :: n <= k < |steps| && DealsWith(steps[k], h, q, end))
    && (forall h :: Live(w0, h) && KeepsPriority(steps[n..], h) ==>
          Begins(steps[n..], h) <= (match TaskOf(w0, h).prio case High => 3 case Normal => 2 case Low => 1))
  }

  predicate KeepsPriority(steps: seq<Step>, h: nat) {
    forall s :: s in steps ==> !(s.SetPriority? && s.h == h)
  }

  lemma PassServed(c0: Cursor, vss: seq<seq<Visit>>)
    requires WellFormed(c0.w) && |vss| == |CYCLE| && PassOk(c0, vss)
    ensures Served(c0.w, |c0.steps|, c0.now, PassEnd(c0, vss).steps, PassEnd(c0, vss).now)
  {
    hide PassOk, PassEnd, Ready, DealsWith, Begins, WellFormed, Ordered;
    var c, n := PassEnd(c0, vss), |c0.steps|;
    PassOrdered(c0, vss);
    forall h, q | Ready(c0.w, h, q, c0.now, c.now)
      ensures exists k :: n <= k < |c.steps| && DealsWith(c.steps[k], h, q, c.now)
    {
      PassServes(c0, vss, h, q);
    }
    forall h | Live(c0.w, h) && KeepsPriority(c.steps[n..], h)
      ensures Begins(c.steps[n..], h) <= (match TaskOf(c0.w, h).prio case High => 3 case Normal => 2 case Low => 1)
    {
      PassServedAtMost(c0, vss, h);
    }
  }

  lemma PassGrows(c0: Cursor, vss: seq<seq<Visit>>)
    requires WellFormed(c0.w) && |vss| == |CYCLE| && PassOk(c0, vss)
    ensures c0.steps <= PassEnd(c0, vss).steps
  {
    PassIsRun(c0, vss);
  }

  lemma PassServedAtMost(c0: Cursor, vss: seq<seq<Visit>>, h: nat)
    requires WellFormed(c0.w) && |vss| == |CYCLE| && PassOk(c0, vss) && Live(c0.w, h)
    requires c0.steps <= PassEnd(c0, vss).steps && KeepsPriority(PassEnd(c0, vss).steps[|c0.steps|..], h)
    ensures Begins(PassEnd(c0, vss).steps[|c0.steps|..], h) <=
      (match TaskOf(c0.w, h).prio case High => 3 case Normal => 2 case Low => 1)
  {
    hide PassOk, PassEnd, Begins, WellFormed, Slots;
    var c, n := PassEnd(c0, vss), |c0.steps|;
    PassBeginsAtMost(c0, vss, h);
    SlotsInCycle();
    assert c.steps == c0.steps + c.steps[n..];
    BeginsConcat(c0.steps, c.steps[n..], h);
  }

  /** What a call of the task function `fn` in state `w` makes of the usage and the reload count. The idle
      task changes them if a second has passed since its reload, and no other function ever does. */
  ghost predicate Accounts(fn: nat, w: World, check: Check, usage: nat, since: nat, usage': nat, since': nat) {
    if fn == IDLE && Minus(Counter(check.at), since) >= TICKS_PER_SECOND then
      Published(w.tasks, usage') && since' == Counter(check.reload)
    else
      usage' == usage && since' == since
  }

  /** A task function that is not the idle task leaves the account as it was. */
  lemma CalledAccounted(w0: World, h0: seq<Step>, me: nat, at: nat, steps: seq<Step>, w: World, h: seq<Step>, now: nat,
                        checks: Checks, usage: nat, since: nat)
    requires Called(w0, h0, me, at, steps, w, h, now) && Accounted(h0, checks, at, usage, since)
    ensures Accounted(h, checks, now, usage, since)
  {
    hide Accounted, Run, Within;
    AccountedSteps(h0, steps, checks, at, now, usage, since);
  }

  lemma EndAccounted(steps: seq<Step>, id: nat, checks: Checks, now: nat, end: nat, usage: nat, since: nat)
    requires Accounted(steps, checks, now, usage, since) && now <= end
    ensures Accounted(steps + [End(id, end)], checks, end, usage, since)
  {
    hide Accounted;
    AccountedStep(steps, End(id, end), checks, now, end, usage, since);
  }

  /** A dispatch of the task at position `i` calls the idle task if that is its function. */
  lemma CallsIdleNow(steps: seq<Step>, w: World, i: nat, now: nat)
    requires w == Run(INITIAL, steps) && WellFormed(w) && i < |w.tasks|
    ensures CallsIdle(steps + [Begin(w.tasks[i].id, now)], |steps|) <==> w.tasks[i].fn == IDLE
  {
    hide Run;
    FindAt(w, i);
    assert (steps + [Begin(w.tasks[i].id, now)])[..|steps|] == steps;
  }

  class Dispatcher {
    const sched: Scheduler
    var ticksSnap: nat
    var initTicks: nat
    var cpuUsage: nat
    var idleHandle: nat
    ghost var checks: Checks

    constructor ()
      ensures Valid() && fresh(sched) && fresh(sched.repr) && fresh(sched.clock) && fresh(sched.history)
      ensures sched.history.steps == [] && cpuUsage == 0 && initTicks == 0
    {
      sched := new Scheduler();
      ticksSnap, initTicks, cpuUsage, idleHandle := 0, 0, 0, 0;
      checks := map[];
      new;
      AccountedStart(sched.clock.now);
    }

    /** The scheduler is valid, and the state of the main loop is not part of it. */
    ghost predicate Separate()
      reads this, sched, sched.repr, sched.clock, sched.history
    {
      sched.Valid() && this !in sched.repr
    }

    /** Between two steps: the fields of the idle task are what its calls have made of them. */
    ghost predicate Valid()
      reads this, sched, sched.repr, sched.clock, sched.history
    {
      Separate() && Accounted(sched.history.steps, checks, sched.clock.now, cpuUsage, initTicks)
    }

    /** The task of `node` has just been dispatched, and its function not yet been called. */
    ghost predicate Dispatched(node: TaskNode)
      reads this, sched, sched.repr, sched.clock, sched.history, node
    {
      && Separate() && node in sched.tasks.nodes
      && var steps := sched.history.steps;
        && steps != [] && steps[|steps| - 1] == Begin(node.id, sched.clock.now)
        && (CallsIdle(steps, |steps| - 1) <==> node.fn == IDLE)
        && Accounted(steps[..|steps| - 1], checks, sched.clock.now, cpuUsage, initTicks)
    }

    /** The task of `node` stays listed when another one is deleted. */
    lemma StaysListed(node: TaskNode, d: nat)
      requires sched.Valid() && node in sched.tasks.nodes && d != node.id
      ensures var i := Find(sched.Model().tasks, d);
        i < |sched.tasks.nodes| ==> node in Without(sched.tasks.nodes, i)
    {
      hide Explains, Scheduler.Inboxes, Tasks.Valid, Mailbox.Valid;
      var nodes, i := sched.tasks.nodes, Find(sched.Model().tasks, d);
      var k :| 0 <= k < |nodes| && nodes[k] == node;
      if i < |nodes| {
        assert nodes[i].id == d;
        assert Without(nodes, i)[if k < i then k else k - 1] == node;
      }
    }

    /** One call of the scheduler's interface by the task function of `node`. */
    method MakeCall(node: TaskNode, call: Call) returns (ghost made: seq<Step>)
      requires sched.Valid() && node in sched.tasks.nodes
      modifies sched`repr, sched`lastId, sched.repr, sched.clock, sched.history
      ensures sched.Valid() && fresh(sched.repr - old(sched.repr)) && node in sched.tasks.nodes
      ensures Called(old(sched.Model()), old(sched.history.steps), node.id, old(sched.clock.now), made,
                     sched.Model(), sched.history.steps, sched.clock.now)
    {
      hide Scheduler.Valid, Scheduler.Model, Called, Apply, Find;
      made := [];
      ghost var at, w, h := sched.clock.now, sched.Model(), sched.history.steps;
      CalledNot(w, h, node.id, at, at);
      match call
      case CreateTask(active, prio, sTicks, fn, hasMemory) =>
        if sched.lastId + 1 < HANDLES {
          var ok, handle := sched.Create(active, prio, sTicks, fn, hasMemory);
          CalledNot(w, h, node.id, at, sched.clock.now);
          if ok {
            made := [Create(active, prio, sTicks, fn, sched.clock.now)];
            CalledOnce(w, h, node.id, at, made[0], sched.clock.now);
          }
        }
      case DeleteTask(d) =>
        if d != node.id {
          StaysListed(node, d);
          var ok := sched.Delete(d);
          made := [Delete(d)];
          CalledOnce(w, h, node.id, at, made[0], at);
        }
      case SetPriorityOf(d, prio) =>
        var ok := sched.SetPriority(d, prio);
        made := [SetPriority(d, prio)];
        CalledOnce(w, h, node.id, at, made[0], at);
      case SuspendTask(d) =>
        var ok := sched.Suspend(d);
        made := [Suspend(d)];
        CalledOnce(w, h, node.id, at, made[0], at);
      case ResumeTask(d) =>
        var ok := sched.Resume(d);
        made := [Resume(d, sched.clock.now)];
        CalledOnce(w, h, node.id, at, made[0], sched.clock.now);
      case SetPeriodOf(d, sTicks, run) =>
        var ok := sched.SetPeriodicTicks(d, sTicks, run);
        made := [SetPeriod(d, sTicks, run, sched.clock.now)];
        CalledOnce(w, h, node.id, at, made[0], sched.clock.now);
      case SendTo(src, dst, data, nodeMemory, dataMemory) =>
        if sched.mailbox.count + 1 < COUNTS {
          ghost var m;
          var ok;
          ok, m := sched.SendMsg(src, dst, data, nodeMemory, dataMemory);
          if ok {
            made := [Send(src, dst, data)];
            CalledOnce(w, h, node.id, at, made[0], at);
          }
        }
      case FlushOwn =>
        sched.FlushMsgs(node.id);
        made := [Flush(node.id)];
        CalledOnce(w, h, node.id, at, made[0], at);
    }

    /** A task function: the idle task, or any sequence of calls. */
    method RunTask(node: TaskNode) returns (ghost body: seq<Step>, ghost check: Check)
      requires Dispatched(node)
      modifies this`initTicks, this`cpuUsage, this`checks, sched`repr,
        sched`lastId, sched.repr, sched.clock, sched.history
      ensures Valid() && fresh(sched.repr - old(sched.repr)) && node in sched.tasks.nodes
      ensures Called(old(sched.Model()), old(sched.history.steps), node.id, old(sched.clock.now), body,
                     sched.Model(), sched.history.steps, sched.clock.now)
      ensures node.fn != IDLE ==> cpuUsage == old(cpuUsage) && initTicks == old(initTicks)
      ensures node.fn == IDLE ==> body == [] && old(sched.clock.now) <= check.at <= check.reload <= sched.clock.now
      ensures node.fn == IDLE && Minus(Counter(check.at), old(initTicks)) >= 1000 ==>
        Published(old(sched.Model()).tasks, cpuUsage) && initTicks == Counter(check.reload)
      ensures node.fn == IDLE && Minus(Counter(check.at), old(initTicks)) < 1000 ==>
        cpuUsage == old(cpuUsage) && initTicks == old(initTicks)
    {
      hide Scheduler.Shape, Scheduler.Model, Explains, Called, Accounted, CallsIdle, Published;
      ghost var at, w, h := sched.clock.now, sched.Model(), sched.history.steps;
      ghost var usage, since, k := cpuUsage, initTicks, |h| - 1;
      body := [];
      CalledNot(w, h, node.id, at, at);
      assert h[..k] + [h[k]] == h;
      if node.fn == IDLE {
        check := RunIdle();
        sched.IsRun();
        AccountedIdle(h[..k], h[k], checks, at, usage, since, check, sched.clock.now, cpuUsage, initTicks);
        checks := checks[k := check];
        CalledNot(w, h, node.id, at, sched.clock.now);
      } else {
        AccountedStep(h[..k], h[k], checks, at, at, usage, since);
        var calls: seq<Call> := *;
        for n := 0 to |calls|
          invariant Separate() && fresh(sched.repr - old(sched.repr)) && node in sched.tasks.nodes
          invariant cpuUsage == usage && initTicks == since && checks == old(checks)
          invariant Called(w, h, node.id, at, body, sched.Model(), sched.history.steps, sched.clock.now)
        {
          ghost var now, w', h' := sched.clock.now, sched.Model(), sched.history.steps;
          ghost var made := MakeCall(node, calls[n]);
          CalledAgain(w, h, node.id, at, body, w', h', now, made, sched.Model(), sched.history.steps, sched.clock.now);
          body := body + made;
        }
        CalledAccounted(w, h, node.id, at, body, sched.Model(), sched.history.steps, sched.clock.now,
                        checks, usage, since);
        check := Check(at, at);
      }
    }

    /** The elapsed ticks of all tasks behind the first, in 32-bit arithmetic. */
    method SumElapsed() returns (total: nat)
      requires sched.Valid()
      ensures total == Elapsed(sched.Model().tasks[if sched.tasks.nodes == [] then 0 else 1..]) % WRAP
    {
      hide Explains, Elapsed, Linked, OwnedBy, Scheduler.Inboxes;
      total := 0;
      NothingElapsed();
      var node := sched.tasks.head;
      if node != null {
        ghost var i, ts := 1, sched.Model().tasks;
        node := node.next;
        assert ts[1..1] == [];
        while node != null
          invariant 1 <= i <= |ts| && node == NodeAt(sched.tasks.nodes, i) && (node == null ==> i == |ts|)
          invariant total == Elapsed(ts[1..i]) % WRAP
          decreases |ts| - i
        {
          OneMoreElapsed(ts, i, total);
          total := (total + node.eTicks) % WRAP;
          node := node.next;
          i := i + 1;
        }
        assert ts[1..i] == ts[1..];
      } else {
        assert sched.Model().tasks == [];
      }
    }

    /** After start-up, as long as the idle task is not deleted: the usage is 0 until the idle task has
        found for the first time that a second has passed, and from then on the time that exactly the
        other tasks had spent when it last found so. */
    lemma PublishesOthers()
      requires Valid() && StartsIdle(sched.history.steps) && Delete(1) !in sched.history.steps
      ensures var steps := sched.history.steps;
        || (cpuUsage == 0 && forall k :: 0 <= k < |steps| ==> !Publishes(k, checks))
        || exists k :: LastOf(k, |steps|, checks) &&
             Percentage(ElapsedOthers(Run(INITIAL, steps[..k + 1]).tasks, 1) % WRAP, cpuUsage)
    {
      hide Run, ElapsedOthers, Percentage, Scheduler.Shape, Publishes, LastOf, Checked;
      ShowsOthers(sched.history.steps, checks, cpuUsage);
    }

    /** After start-up, as long as the idle task is not deleted: every dispatch of it comes to the check
        whether a second has passed, and of two with no publication in between the second publishes
        exactly if the real time from the reload of the first to its check says so. */
    lemma PublishesWhenDue(k: nat, j: nat)
      requires Valid() && StartsIdle(sched.history.steps) && Delete(1) !in sched.history.steps
      requires var steps := sched.history.steps; j < |steps| && steps[j].Begin? && steps[j].h == 1
      requires LastOf(k, j, checks)
      ensures k in checks && j in checks && sched.history.steps[j].now <= checks[j].at
      ensures Publishes(j, checks) <==> (checks[j].at - checks[k].reload) % 0x1_0000_0000 >= 1000
    {
      hide Run, Publishes, LastOf, Scheduler.Shape, CallsIdle, Shows;
      IdleIsChecked(sched.history.steps, checks, sched.clock.now, j);
      PublishesEverySecond(sched.history.steps, checks, sched.clock.now, k, j);
    }

    /** The idle task: once a second it turns the elapsed ticks into a percentage. */
    method RunIdle() returns (ghost check: Check)
      requires Separate()
      modifies this`initTicks, this`cpuUsage, sched.clock
      ensures Separate() && sched.Model() == old(sched.Model()) && sched.tasks.nodes == old(sched.tasks.nodes)
      ensures old(sched.clock.now) <= check.at <= check.reload <= sched.clock.now
      ensures if Minus(Counter(check.at), old(initTicks)) >= 1000
        then Published(sched.Model().tasks, cpuUsage) && initTicks == Counter(check.reload)
        else cpuUsage == old(cpuUsage) && initTicks == old(initTicks)
    {
      hide Scheduler.Shape, Explains, Elapsed;
      var c := sched.ReadTicks();
      check := Check(sched.clock.now, sched.clock.now);
      if Minus(c, initTicks) >= TICKS_PER_SECOND {
        var total := SumElapsed();
        total := if total > TICKS_PER_SECOND then TICKS_PER_SECOND else total;
        cpuUsage := (total as real / TICKS_PER_SECOND as real * 100.0).Floor;
        initTicks := sched.ReadTicks();
        check := check.(reload := sched.clock.now);
      }
    }

    /** Where the main loop stands. */
    ghost function Here(i: nat): Cursor
      requires Valid()
      reads this, sched, sched.repr, sched.clock, sched.history
    {
      Cursor(sched.Model(), i, sched.history.steps, sched.clock.now)
    }

    /** Reloads the task at position `i` at tick reading `c` and calls its function. Afterwards the task
        is at position `k`. */
    method CallTask(node: TaskNode, ghost i: nat, c: nat)
      returns (ghost body: seq<Step>, ghost k: nat, ghost check: Check)
      requires Valid() && i < |sched.tasks.nodes| && sched.tasks.nodes[i] == node
      requires c == Counter(sched.clock.now) && node.active && node.fn != 0 && Minus(c, node.nTicks) >= node.sTicks
      modifies this`initTicks, this`cpuUsage, this`checks, sched`repr,
        sched`lastId, sched.repr, sched.clock, sched.history
      ensures Valid() && fresh(sched.repr - old(sched.repr))
      ensures k < |sched.tasks.nodes| && sched.tasks.nodes[k] == node
      ensures Called(Apply(old(sched.Model()), Begin(node.id, old(sched.clock.now))),
                     old(sched.history.steps) + [Begin(node.id, old(sched.clock.now))], node.id,
                     old(sched.clock.now), body, sched.Model(), sched.history.steps, sched.clock.now)
      ensures node.fn == IDLE ==> old(sched.clock.now) <= check.at <= check.reload <= sched.clock.now
      ensures Accounts(node.fn, Apply(old(sched.Model()), Begin(node.id, old(sched.clock.now))), check,
                       old(cpuUsage), old(initTicks), cpuUsage, initTicks)
    {
      hide Scheduler.Valid, Scheduler.Model, Called, Apply, Accounted, Published;
      sched.Placed(i);
      sched.IsRun();
      ghost var h := sched.history.steps;
      CallsIdleNow(h, sched.Model(), i, sched.clock.now);
      sched.Begin(node, i, c);
      assert sched.history.steps[..|h|] == h;
      body, check := RunTask(node);
      k :| k < |sched.tasks.nodes| && sched.tasks.nodes[k] == node;
    }

    /** Runs the task at position `i` at tick reading `c`: a visit of the model. `j` is where the
        scan goes on. */
    method Dispatch(node: TaskNode, ghost i: nat, ghost p: Priority, c: nat)
      returns (ghost v: Visit, ghost j: nat, ghost check: Check)
      requires Valid() && i < |sched.tasks.nodes| && sched.tasks.nodes[i] == node
      requires c == Counter(sched.clock.now) && Runs(node.Value(), p, sched.clock.now)
      modifies this`initTicks, this`cpuUsage, this`checks, sched`repr,
        sched`lastId, sched.repr, sched.clock, sched.history
      ensures Valid() && fresh(sched.repr - old(sched.repr))
      ensures 0 < j <= |sched.tasks.nodes| && sched.tasks.nodes[j - 1] == node
      ensures VisitOk(old(Here(i)), p, v) && Here(j) == AfterVisit(old(Here(i)), p, v)
      ensures Nearer(old(Here(i)), Here(j)) && v.at == old(sched.clock.now)
      ensures node.fn == IDLE ==> v.at <= check.at <= check.reload <= v.end
      ensures Accounts(node.fn, Apply(old(sched.Model()), Begin(node.id, v.at)), check,
                       old(cpuUsage), old(initTicks), cpuUsage, initTicks)
    {
      hide Scheduler.Valid, Scheduler.Model, Called, Find, Apply, Nearer, AfterVisit, VisitOk, WellFormed, Creations;
      hide Accounted, Accounts;
      ghost var c0, at := Here(i), sched.clock.now;
      sched.Placed(i);
      ghost var body, k;
      body, k, check := CallTask(node, i, c);
      j := k + 1;
      ghost var mid, hmid, now := sched.Model(), sched.history.steps, sched.clock.now;
      sched.Placed(k);
      sched.End(node, k);
      EndAccounted(hmid, node.id, checks, now, sched.clock.now, cpuUsage, initTicks);
      sched.Placed(k);
      v := Visit(at, body, sched.clock.now);
      IsVisit(c0, p, v, mid, hmid, now, Here(j));
    }

    /** One round of the scan: the checks on a node, and its dispatch if they hold. */
    method VisitTask(node: TaskNode, ghost i: nat, p: Priority)
      returns (ghost v: Visit, ghost j: nat, ghost check: Check)
      requires Valid() && i < |sched.tasks.nodes| && sched.tasks.nodes[i] == node
      modifies this`initTicks, this`cpuUsage, this`checks, sched`repr,
        sched`lastId, sched.repr, sched.clock, sched.history
      ensures Valid() && fresh(sched.repr - old(sched.repr))
      ensures 0 < j <= |sched.tasks.nodes| && sched.tasks.nodes[j - 1] == node
      ensures VisitOk(old(Here(i)), p, v) && Here(j) == AfterVisit(old(Here(i)), p, v) && Nearer(old(Here(i)), Here(j))
      ensures node.fn == IDLE && Runs(old(node.Value()), p, v.at) ==> v.at <= check.at <= check.reload <= v.end
      ensures if Runs(old(node.Value()), p, v.at)
        then Accounts(node.fn, Apply(old(sched.Model()), Begin(node.id, v.at)), check,
                      old(cpuUsage), old(initTicks), cpuUsage, initTicks)
        else cpuUsage == old(cpuUsage) && initTicks == old(initTicks)
    {
      hide Scheduler.Shape, Scheduler.Model, Explains, Find, Nearer, AfterVisit, VisitOk, WellFormed;
      hide Accounted, Accounts;
      ghost var c0 := Here(i);
      sched.Placed(i);
      if node.active && node.fn != 0 && p == node.prio {
        var c := sched.ReadTicks();
        AccountedLater(sched.history.steps, checks, c0.now, sched.clock.now, cpuUsage, initTicks);
        sched.Placed(i);
        if Minus(c, node.nTicks) >= node.sTicks {
          ghost var c1 := Here(i);
          v, j, check := Dispatch(node, i, p, c);
          CheckedLater(c0, c1, p, v);
          return;
        }
      }
      v, j, check := Visit(sched.clock.now, [], sched.clock.now), i + 1, Check(0, 0);
      IsPassedOver(c0, p, v);
    }

    /** One scan of the list for priority `p`. Each round reads the link of the visited node after
        its function has returned. */
    method Scan(p: Priority) returns (ghost vs: seq<Visit>, ghost i: nat)
      requires Valid()
      modifies this`initTicks, this`cpuUsage, this`checks, sched`repr,
        sched`lastId, sched.repr, sched.clock, sched.history
      ensures Valid() && fresh(sched.repr - old(sched.repr))
      ensures ScanOk(old(Here(0)), p, vs) && Here(i) == ScanEnd(old(Here(0)), p, vs) && i == |sched.Model().tasks|
    {
      hide Scheduler.Shape, Scheduler.Model, Explains, Run, AfterVisit, VisitOk;
      ghost var c0 := Here(0);
      vs, i := [], 0;
      sched.Followed(0);
      var node := sched.tasks.head;
      while node != null
        invariant Valid() && fresh(sched.repr - old(sched.repr))
        invariant i <= |sched.tasks.nodes| && node == NodeAt(sched.tasks.nodes, i)
        invariant node == null ==> i == |sched.tasks.nodes|
        invariant |sched.Model().tasks| == |sched.tasks.nodes| && sched.Model().lastId == sched.lastId < HANDLES
        invariant ScanOk(c0, p, vs) && Here(i) == ScanEnd(c0, p, vs)
        decreases HANDLES - sched.lastId, |sched.tasks.nodes| - i
      {
        ghost var v;
        ghost var check;
        v, i, check := VisitTask(node, i, p);
        ScanGoesOn(c0, p, vs, v);
        vs := vs + [v];
        sched.Followed(i);
        node := node.next;
      }
    }

    /** The six scans of a pass. */
    method RunCycle() returns (ghost vss: seq<seq<Visit>>, ghost i: nat)
      requires Valid()
      modifies this`initTicks, this`cpuUsage, this`checks, sched`repr,
        sched`lastId, sched.repr, sched.clock, sched.history
      ensures Valid() && fresh(sched.repr - old(sched.repr))
      ensures |vss| == |CYCLE| && PassOk(old(Here(0)), vss) && Here(i) == PassEnd(old(Here(0)), vss)
    {
      hide Scheduler.Shape, Scheduler.Model, Explains;
      ghost var c0 := Here(0);
      vss, i := [], 0;
      for k := 0 to |CYCLE|
        invariant Valid() && fresh(sched.repr - old(sched.repr))
        invariant |vss| == k && PassOk(c0, vss) && Here(i) == PassEnd(c0, vss)
      {
        ghost var vs;
        vs, i := Scan(CYCLE[k]);
        PassGoesOn(c0, vss, vs);
        vss := vss + [vs];
      }
    }

    /** One call of the scheduler: a pass if the counter has moved since the last one. */
    method Serve() returns (ghost served: bool, ghost start: nat, ghost end: nat)
      requires Valid()
      modifies this`ticksSnap, this`initTicks, this`cpuUsage, this`checks, sched`repr,
        sched`lastId, sched.repr, sched.clock, sched.history
      ensures Valid() && fresh(sched.repr - old(sched.repr))
      ensures old(sched.clock.now) <= start <= end <= sched.clock.now && ticksSnap == Counter(sched.clock.now)
      ensures served == (Minus(Counter(start), old(ticksSnap)) != 0)
      ensures !served ==> sched.Model() == old(sched.Model()) && sched.history.steps == old(sched.history.steps)
      ensures !served ==> cpuUsage == old(cpuUsage) && initTicks == old(initTicks)
      ensures old(sched.history.steps) <= sched.history.steps
      ensures served ==> Served(old(sched.Model()), |old(sched.history.steps)|, start, sched.history.steps, end)
    {
      hide Scheduler.Shape, Scheduler.Model, Explains, Served, PassOk, PassEnd, WellFormed, Accounted;
      served := false;
      sched.ValidIsWellFormed();
      ghost var before := sched.clock.now;
      var c := sched.ReadTicks();
      AccountedLater(sched.history.steps, checks, before, sched.clock.now, cpuUsage, initTicks);
      start := sched.clock.now;
      if Minus(c, ticksSnap) != 0 {
        served := true;
        ghost var c0 := Here(0);
        ghost var vss, i := RunCycle();
        PassServed(c0, vss);
        PassGrows(c0, vss);
        PassAdvancesTime(c0, vss);
      }
      end := sched.clock.now;
      ticksSnap := sched.ReadTicks();
      AccountedLater(sched.history.steps, checks, end, sched.clock.now, cpuUsage, initTicks);
    }

    /** Start-up: creates the idle task. */
    method Initialize(hasMemory: bool) returns (ok: bool)
      requires Valid() && sched.history.steps == []
      modifies this`idleHandle, sched`repr, sched`lastId, sched.repr, sched.clock, sched.history
      ensures Valid() && fresh(sched.repr - old(sched.repr)) && ok == hasMemory
      ensures ok ==> idleHandle == 1 && sched.history.steps == [Create(true, High, 1, IDLE, sched.clock.now)]
      ensures ok ==> StartsIdle(sched.history.steps)
    {
      hide Scheduler.Shape, Scheduler.Model, Explains;
      sched.NothingYet();
      var h;
      ok, h := sched.Create(true, High, 1, IDLE, hasMemory);
      if ok {
        sched.Followed(0);
        idleHandle := h;
      }
    }
  }
}

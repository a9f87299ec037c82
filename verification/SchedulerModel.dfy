/** The co-operative scheduler as a transition system on values: a task list in list order, the
    mailbox in arrival order, and the last handle given out.

    The class in Scheduler.dfy keeps the same state in linked nodes; each of its operations is
    proved to act on this state as the step of the same name.
 */
module SchedulerModel {
  import opened Ticks

  datatype Priority = High | Normal | Low

  /** The order in which one pass serves the priorities. */
  const CYCLE: seq<Priority> := [High, Normal, High, Low, High, Normal]

  const HANDLES := 0x1_0000

  datatype Msg = Msg(src: nat, dst: nat, data: seq<bv8>)

  /** `fn` is the task function, 0 standing for the null pointer. */
  datatype Task = Task(id: nat, active: bool, prio: Priority, sTicks: nat, nTicks: nat, eTicks: nat,
                       fn: nat, pending: seq<Msg>)

  datatype World = World(tasks: seq<Task>, mailbox: seq<Msg>, lastId: nat)

  const INITIAL := World([], [], 0)

  /** What can happen to the scheduler. Each `now` is the real time of the tick reading. `Begin` is
      the reload and mail collection before a task function is called, `End` the bookkeeping after
      it; whatever the function does lies in between. */
  datatype Step =
    | Create(active: bool, prio: Priority, sTicks: nat, fn: nat, now: nat)
    | Delete(h: nat)
    | SetPriority(h: nat, prio: Priority)
    | Suspend(h: nat)
    | Resume(h: nat, now: nat)
    | SetPeriod(h: nat, sTicks: nat, run: bool, now: nat)
    | Send(src: nat, dst: nat, data: seq<bv8>)
    | Flush(h: nat)
    | Begin(h: nat, now: nat)
    | End(h: nat, now: nat)

  /** Position of the first task with handle `h`, or the number of tasks. */
  function Find(ts: seq<Task>, h: nat): (r: nat)
    ensures r <= |ts|
    ensures r < |ts| ==> ts[r].id == h
    ensures forall k :: 0 <= k < r ==> ts[k].id != h
  {
    if ts == [] then 0 else if ts[0].id == h then 0 else 1 + Find(ts[1..], h)
  }

  predicate Live(w: World, h: nat) {
    Find(w.tasks, h) < |w.tasks|
  }

  function TaskOf(w: World, h: nat): (t: Task)
    requires Live(w, h)
    ensures t in w.tasks && t.id == h
  {
    w.tasks[Find(w.tasks, h)]
  }

  /** The messages of `ms` for destination `h`, in order. */
  function Select(ms: seq<Msg>, h: nat): (r: seq<Msg>)
    ensures forall m :: m in r <==> m in ms && m.dst == h
  {
    if ms == [] then [] else
      var rest := Select(ms[..|ms| - 1], h);
      if ms[|ms| - 1].dst == h then rest + [ms[|ms| - 1]] else rest
  }

  /** The messages of `ms` for any other destination, in order. */
  function Reject(ms: seq<Msg>, h: nat): (r: seq<Msg>)
    ensures forall m :: m in r <==> m in ms && m.dst != h
  {
    if ms == [] then [] else
      var rest := Reject(ms[..|ms| - 1], h);
      if ms[|ms| - 1].dst == h then rest else rest + [ms[|ms| - 1]]
  }

  function Pending(w: World, h: nat): seq<Msg> {
    if Live(w, h) then TaskOf(w, h).pending else []
  }

  function Without<T>(s: seq<T>, i: nat): (r: seq<T>)
    requires i < |s|
    ensures |r| == |s| - 1
    ensures forall k :: 0 <= k < i ==> r[k] == s[k]
    ensures forall k :: i <= k < |r| ==> r[k] == s[k + 1]
  {
    s[..i] + s[i + 1..]
  }

  /** `w` with the first task of handle `h` replaced. */
  function Put(w: World, t: Task): World
    requires Live(w, t.id)
  {
    w.(tasks := w.tasks[Find(w.tasks, t.id) := t])
  }

  function Apply(w: World, s: Step): World {
    match s
    case Create(active, prio, sTicks, fn, now) =>
      var id := (w.lastId + 1) % HANDLES;
      World(w.tasks + [Task(id, active, prio, sTicks, Counter(now), 0, fn, [])], w.mailbox, id)
    case Send(src, dst, data) =>
      w.(mailbox := w.mailbox + [Msg(src, dst, data)])
    case _ =>
      if Live(w, s.h) then ApplyTo(w, s, TaskOf(w, s.h)) else w
  }

  /** The steps that name a live task. */
  function ApplyTo(w: World, s: Step, t: Task): World
    requires !s.Create? && !s.Send? && Live(w, s.h) && t == TaskOf(w, s.h)
  {
    if s.Delete? then
      w.(tasks := Without(w.tasks, Find(w.tasks, s.h)), mailbox := Reject(w.mailbox, s.h))
    else
      Put(w, Updated(t, s, w.mailbox)).(mailbox := if s.Begin? then Reject(w.mailbox, s.h) else w.mailbox)
  }

  /** The named task after a step that leaves it in the list. */
  function Updated(t: Task, s: Step, mailbox: seq<Msg>): (t': Task)
    requires !s.Create? && !s.Send? && !s.Delete?
    ensures t'.id == t.id
  {
    match s
    case SetPriority(h, prio) =>
      t.(prio := prio)
    case Suspend(h) =>
      t.(active := false)
    case Resume(h, now) =>
      t.(active := true, nTicks := Minus(Counter(now), t.sTicks))
    case SetPeriod(h, sTicks, run, now) =>
      t.(sTicks := sTicks, nTicks := if run then Minus(Counter(now), sTicks) else Counter(now))
    case Flush(h) =>
      t.(pending := [])
    case Begin(h, now) =>
      t.(nTicks := Counter(now), eTicks := Counter(now), pending := t.pending + Select(mailbox, h))
    case End(h, now) =>
      t.(eTicks := Minus(Counter(now), t.eTicks))
  }

  function Run(w: World, steps: seq<Step>): World {
    if steps == [] then w else Apply(Run(w, steps[..|steps| - 1]), steps[|steps| - 1])
  }

  lemma {:induction false} RunConcat(w: World, a: seq<Step>, b: seq<Step>)
    ensures Run(w, a + b) == Run(Run(w, a), b)
  {
    hide Apply;
    if b == [] {
      assert a + b == a;
    } else {
      var b' := b[..|b| - 1];
      RunConcat(w, a, b');
      assert (a + b)[..|a + b| - 1] == a + b';
    }
  }

  lemma RunOne(w: World, a: seq<Step>, s: Step)
    ensures Run(w, a + [s]) == Apply(Run(w, a), s)
  {
    assert (a + [s])[..|a + [s]| - 1] == a;
  }

  // ----- What every run keeps ------------------------------------------------------------------

  /** How many tasks a run creates. */
  function Creations(steps: seq<Step>): nat {
    if steps == [] then 0 else
      Creations(steps[..|steps| - 1]) + if steps[|steps| - 1].Create? then 1 else 0
  }

  /** Handles are in 1..lastId and pairwise distinct, and a task only holds its own mail. */
  ghost predicate WellFormed(w: World) {
    && w.lastId < HANDLES
    && |w.tasks| <= w.lastId
    && (forall k :: 0 <= k < |w.tasks| ==> 0 < w.tasks[k].id <= w.lastId)
    && (forall j, k :: 0 <= j < k < |w.tasks| ==> w.tasks[j].id != w.tasks[k].id)
    && (forall k :: 0 <= k < |w.tasks| ==> OwnMail(w.tasks[k]))
  }

  ghost predicate OwnMail(t: Task) {
    forall m :: m in t.pending ==> m.dst == t.id
  }

  /** With distinct handles, looking a handle up finds the task wherever it is in the list. */
  lemma FindAt(w: World, k: nat)
    requires WellFormed(w) && k < |w.tasks|
    ensures Find(w.tasks, w.tasks[k].id) == k && Live(w, w.tasks[k].id) && TaskOf(w, w.tasks[k].id) == w.tasks[k]
  {
    var f := Find(w.tasks, w.tasks[k].id);
    assert f <= k;
  }

  lemma PutKeepsWellFormed(w: World, t: Task)
    requires WellFormed(w) && Live(w, t.id) && OwnMail(t)
    ensures WellFormed(Put(w, t))
  {
    var i := Find(w.tasks, t.id);
    var ts := Put(w, t).tasks;
    assert forall k :: 0 <= k < |ts| ==> ts[k].id == w.tasks[k].id;
    assert forall k :: 0 <= k < |ts| && k != i ==> ts[k] == w.tasks[k];
  }

  lemma DeleteKeepsWellFormed(w: World, i: nat, mail: seq<Msg>)
    requires WellFormed(w) && i < |w.tasks|
    ensures WellFormed(w.(tasks := Without(w.tasks, i), mailbox := mail))
  {
    var ts := Without(w.tasks, i);
    assert forall k :: 0 <= k < |ts| ==> ts[k] == w.tasks[if k < i then k else k + 1];
  }

  lemma ApplyKeepsWellFormed(w: World, s: Step)
    requires WellFormed(w)
    requires s.Create? ==> w.lastId + 1 < HANDLES
    ensures WellFormed(Apply(w, s))
    ensures Apply(w, s).lastId == w.lastId + if s.Create? then 1 else 0
  {
    if s.Create? {
      var ts := Apply(w, s).tasks;
      assert forall k :: 0 <= k < |ts| - 1 ==> ts[k] == w.tasks[k];
    } else if !s.Send? && Live(w, s.h) {
      ApplyToKeepsWellFormed(w, s, TaskOf(w, s.h));
    }
  }

  lemma ApplyToKeepsWellFormed(w: World, s: Step, t: Task)
    requires !s.Create? && !s.Send? && Live(w, s.h) && t == TaskOf(w, s.h)
    requires WellFormed(w)
    ensures WellFormed(ApplyTo(w, s, t)) && ApplyTo(w, s, t).lastId == w.lastId
  {
    assert OwnMail(t);
    if s.Delete? {
      DeleteKeepsWellFormed(w, Find(w.tasks, s.h), Reject(w.mailbox, s.h));
    } else {
      PutKeepsWellFormed(w, Updated(t, s, w.mailbox));
    }
  }

  /** Over every run that creates fewer than 2^16 tasks in all, handles stay non-zero and distinct. */
  lemma {:induction false} RunKeepsWellFormed(w: World, steps: seq<Step>)
    requires WellFormed(w) && w.lastId + Creations(steps) < HANDLES
    ensures WellFormed(Run(w, steps))
    ensures Run(w, steps).lastId == w.lastId + Creations(steps)
  {
    if steps == [] {
    } else {
      RunKeepsWellFormed(w, steps[..|steps| - 1]);
      ApplyKeepsWellFormed(Run(w, steps[..|steps| - 1]), steps[|steps| - 1]);
    }
  }

  /** The bound is exact: the creation that reaches 2^16 hands out the null handle. */
  lemma CreationAfterLastHandle(w: World, s: Step)
    requires WellFormed(w) && s.Create?
    ensures WellFormed(Apply(w, s)) <==> w.lastId + 1 < 0x1_0000
    ensures w.lastId + 1 == 0x1_0000 ==> Apply(w, s).tasks[|w.tasks|].id == 0
  {
    if w.lastId + 1 < HANDLES {
      ApplyKeepsWellFormed(w, s);
    } else {
      assert Apply(w, s).tasks[|w.tasks|].id == 0;
    }
  }

  // ----- Looking a handle up after a step ------------------------------------------------------

  lemma FindUnique(ts: seq<Task>, h: nat, k: nat)
    requires k < |ts| && ts[k].id == h
    requires forall j :: 0 <= j < |ts| && j != k ==> ts[j].id != h
    ensures Find(ts, h) == k
  {
  }

  /** The handle that a step names, if it names one. */
  predicate Names(s: Step, h: nat) {
    !s.Create? && !s.Send? && s.h == h
  }

  /** Removing one task does not affect what is found under any other handle. */
  lemma IdsDiffer(w: World)
    requires WellFormed(w)
    ensures forall j, k :: 0 <= j < k < |w.tasks| ==> w.tasks[j].id != w.tasks[k].id
  {
  }

  lemma FindAfterRemoval(w: World, i: nat, h: nat)
    requires WellFormed(w) && i < |w.tasks|
    ensures var f, f' := Find(w.tasks, h), Find(Without(w.tasks, i), h);
      if f == |w.tasks| || f == i then f' == |w.tasks| - 1
      else if f < i then f' == f else f' == f - 1
  {
    hide OwnMail, WellFormed;
    IdsDiffer(w);
    var ts := Without(w.tasks, i);
    var f := Find(w.tasks, h);
    assert forall k :: 0 <= k < |ts| ==> ts[k] == w.tasks[if k < i then k else k + 1];
    if f < |w.tasks| && f != i {
      FindUnique(ts, h, if f < i then f else f - 1);
    }
  }

  lemma FindAfterPut(w: World, t: Task, h: nat)
    requires Live(w, t.id)
    ensures Find(Put(w, t).tasks, h) == Find(w.tasks, h)
  {
    var ts := Put(w, t).tasks;
    assert forall k :: 0 <= k < |ts| ==> ts[k].id == w.tasks[k].id;
    var f, f' := Find(w.tasks, h), Find(ts, h);
    assert f' <= f && f <= f';
  }

  lemma {:induction false} FindAfterAppend(ts: seq<Task>, t: Task, h: nat)
    ensures Find(ts + [t], h) == if Find(ts, h) < |ts| then Find(ts, h) else if t.id == h then |ts| else |ts| + 1
  {
    if ts == [] {
    } else {
      assert (ts + [t])[1..] == ts[1..] + [t];
      FindAfterAppend(ts[1..], t, h);
    }
  }

  /** What a step does to the task it names. */
  lemma StepOnNamed(w: World, s: Step)
    requires WellFormed(w) && !s.Create? && !s.Send? && Live(w, s.h)
    ensures s.Delete? ==> !Live(Apply(w, s), s.h)
    ensures !s.Delete? ==> Live(Apply(w, s), s.h) && TaskOf(Apply(w, s), s.h) == Updated(TaskOf(w, s.h), s, w.mailbox)
  {
    if s.Delete? {
      FindAfterRemoval(w, Find(w.tasks, s.h), s.h);
    } else {
      FindAfterPut(w, Updated(TaskOf(w, s.h), s, w.mailbox), s.h);
    }
  }

  /** What that is for each step. */
  lemma StepSets(w: World, s: Step)
    requires WellFormed(w) && !s.Create? && !s.Send? && !s.Delete? && Live(w, s.h)
    ensures Live(Apply(w, s), s.h)
    ensures var t, t' := TaskOf(w, s.h), TaskOf(Apply(w, s), s.h);
      && (s.SetPriority? ==> t' == t.(prio := s.prio))
      && (s.Suspend? ==> t' == t.(active := false))
      && (s.Resume? ==> t' == t.(active := true, nTicks := (s.now - t.sTicks) % 0x1_0000_0000))
      && (s.SetPeriod? ==>
           t' == t.(sTicks := s.sTicks, nTicks := (if s.run then s.now - s.sTicks else s.now) % 0x1_0000_0000))
      && (s.Flush? ==> t' == t.(pending := []))
      && (s.Begin? ==>
           t' == t.(nTicks := s.now % 0x1_0000_0000, eTicks := s.now % 0x1_0000_0000,
                    pending := t.pending + Select(w.mailbox, s.h)))
      && (s.End? ==> t' == t.(eTicks := (s.now - t.eTicks) % 0x1_0000_0000))
  {
    hide WellFormed, Live, Apply;
    StepOnNamed(w, s);
    var t := TaskOf(w, s.h);
    if s.Resume? {
      ModShift(s.now - t.sTicks, Counter(s.now) - t.sTicks, s.now / WRAP);
    } else if s.SetPeriod? && s.run {
      ModShift(s.now - s.sTicks, Counter(s.now) - s.sTicks, s.now / WRAP);
    } else if s.End? {
      ModShift(s.now - t.eTicks, Counter(s.now) - t.eTicks, s.now / WRAP);
    }
  }

  /** A step leaves every task it does not name as it was; a new handle was not live before. */
  lemma StepOnOthers(w: World, s: Step, h: nat)
    requires WellFormed(w) && (s.Create? ==> w.lastId + 1 < HANDLES)
    requires !Names(s, h)
    ensures Live(w, h) ==> Live(Apply(w, s), h) && TaskOf(Apply(w, s), h) == TaskOf(w, h)
    ensures !Live(w, h) && Live(Apply(w, s), h) ==> s.Create? && h == w.lastId + 1
    ensures s.Create? && h == w.lastId + 1 ==>
      !Live(w, h) && Live(Apply(w, s), h) &&
      TaskOf(Apply(w, s), h) == Task(h, s.active, s.prio, s.sTicks, Counter(s.now), 0, s.fn, [])
  {
    hide Find, WellFormed;
    if s.Create? {
      CreateOnOthers(w, s, h);
    } else if !s.Send? && Live(w, s.h) {
      if s.Delete? {
        FindAfterRemoval(w, Find(w.tasks, s.h), h);
      } else {
        PutOnOthers(w, Updated(TaskOf(w, s.h), s, w.mailbox), h);
      }
    }
  }

  lemma CreateOnOthers(w: World, s: Step, h: nat)
    requires WellFormed(w) && s.Create? && w.lastId + 1 < HANDLES
    ensures Live(w, h) ==> Live(Apply(w, s), h) && TaskOf(Apply(w, s), h) == TaskOf(w, h)
    ensures !Live(w, h) ==> Live(Apply(w, s), h) == (h == w.lastId + 1)
    ensures h == w.lastId + 1 ==>
      !Live(w, h) && Live(Apply(w, s), h) &&
      TaskOf(Apply(w, s), h) == Task(h, s.active, s.prio, s.sTicks, Counter(s.now), 0, s.fn, [])
  {
    FindAfterAppend(w.tasks, Apply(w, s).tasks[|w.tasks|], h);
  }

  lemma PutOnOthers(w: World, t: Task, h: nat)
    requires Live(w, t.id) && t.id != h
    ensures Live(Put(w, t), h) == Live(w, h)
    ensures Live(w, h) ==> TaskOf(Put(w, t), h) == TaskOf(w, h)
  {
    FindAfterPut(w, t, h);
  }

  /** The effect of a step on the fields of the task it names, by position in the list. */
  lemma ApplyAt(w: World, s: Step, i: nat)
    requires !s.Create? && !s.Send? && !s.Delete? && !s.Begin?
    requires Find(w.tasks, s.h) == i < |w.tasks|
    ensures Apply(w, s) == w.(tasks := w.tasks[i := Updated(w.tasks[i], s, w.mailbox)])
  {
  }

  // ----- Delivery of messages ------------------------------------------------------------------

  /** Everything the scheduler still holds for `h`: collected mail first, then the mailbox. */
  function Held(w: World, h: nat): seq<Msg> {
    Pending(w, h) + Select(w.mailbox, h)
  }

  /** The message that a step sends to `h`. */
  function SentBy(s: Step, h: nat): seq<Msg> {
    if s.Send? && s.dst == h then [Msg(s.src, s.dst, s.data)] else []
  }

  function Sent(steps: seq<Step>, h: nat): seq<Msg> {
    if steps == [] then [] else Sent(steps[..|steps| - 1], h) + SentBy(steps[|steps| - 1], h)
  }

  /** The messages for `h` that a step takes out of the scheduler: a flush consumes what the task
      has collected, a deletion discards everything that is held for the task. */
  function TakenBy(w: World, s: Step, h: nat): seq<Msg> {
    if s.Flush? && s.h == h then Pending(w, h)
    else if s.Delete? && s.h == h && Live(w, h) then Held(w, h)
    else []
  }

  function Taken(w: World, steps: seq<Step>, h: nat): seq<Msg> {
    if steps == [] then [] else
      var before := steps[..|steps| - 1];
      Taken(w, before, h) + TakenBy(Run(w, before), steps[|steps| - 1], h)
  }

  lemma {:induction false} SelectSplit(ms: seq<Msg>, h: nat, other: nat)
    ensures Select(Reject(ms, h), h) == []
    ensures other != h ==> Select(Reject(ms, h), other) == Select(ms, other)
  {
    if ms == [] {
    } else {
      var rest, last := ms[..|ms| - 1], ms[|ms| - 1];
      SelectSplit(rest, h, other);
      if last.dst != h {
        assert Reject(ms, h)[..|Reject(ms, h)| - 1] == Reject(rest, h);
      }
    }
  }

  /** How a step changes the mail that is still in the mailbox for `h`. */
  lemma StepOnMailbox(w: World, s: Step, h: nat)
    ensures Select(Apply(w, s).mailbox, h) ==
      if s.Send? then Select(w.mailbox, h) + SentBy(s, h)
      else if (s.Begin? || s.Delete?) && s.h == h && Live(w, h) then []
      else Select(w.mailbox, h)
  {
    if s.Send? {
      assert Apply(w, s).mailbox[..|w.mailbox|] == w.mailbox;
    } else if !s.Create? && Live(w, s.h) {
      SelectSplit(w.mailbox, s.h, h);
    }
  }

  /** How a step changes the mail that the task `h` has collected. */
  lemma StepOnPending(w: World, s: Step, h: nat)
    requires WellFormed(w) && (s.Create? ==> w.lastId + 1 < HANDLES)
    ensures Pending(Apply(w, s), h) ==
      if (s.Flush? || s.Delete?) && s.h == h then []
      else if s.Begin? && s.h == h && Live(w, h) then Pending(w, h) + Select(w.mailbox, h)
      else Pending(w, h)
  {
    if !Names(s, h) {
      StepOnOthers(w, s, h);
    } else if Live(w, h) {
      StepOnNamed(w, s);
    }
  }

  lemma StepConserves(w: World, s: Step, h: nat)
    requires WellFormed(w) && (s.Create? ==> w.lastId + 1 < HANDLES)
    ensures TakenBy(w, s, h) + Held(Apply(w, s), h) == Held(w, h) + SentBy(s, h)
  {
    hide Select, Apply, WellFormed, Reject, Updated;
    StepOnMailbox(w, s, h);
    StepOnPending(w, s, h);
  }

  lemma Telescope<T>(taken: seq<T>, held: seq<T>, start: seq<T>, sent: seq<T>,
                     taken': seq<T>, held': seq<T>, sent': seq<T>)
    requires taken + held == start + sent
    requires taken' + held' == held + sent'
    ensures (taken + taken') + held' == start + (sent + sent')
  {
    assert (taken + taken') + held' == taken + (taken' + held');
    assert start + (sent + sent') == (start + sent) + sent';
  }

  /** Exactly-once, per-destination FIFO delivery over any run: what was taken out for `h`, then
      what its task has collected, then its part of the mailbox, is what was there at the start
      followed by everything sent to `h` since, in sending order. */
  lemma {:induction false} RunConserves(w: World, steps: seq<Step>, h: nat)
    requires WellFormed(w) && w.lastId + Creations(steps) < HANDLES
    ensures Taken(w, steps, h) + Held(Run(w, steps), h) == Held(w, h) + Sent(steps, h)
  {
    if steps == [] {
    } else {
      var before, s := steps[..|steps| - 1], steps[|steps| - 1];
      RunConserves(w, before, h);
      RunKeepsWellFormed(w, before);
      var mid := Run(w, before);
      StepConserves(mid, s, h);
      Telescope(Taken(w, before, h), Held(mid, h), Held(w, h), Sent(before, h),
            TakenBy(mid, s, h), Held(Apply(mid, s), h), SentBy(s, h));
    }
  }

  /** Deleting a task leaves neither the task nor any mail for its handle behind. */
  lemma DeletePurges(w: World, h: nat)
    requires WellFormed(w) && Live(w, h)
    ensures !Live(Apply(w, Delete(h)), h) && Held(Apply(w, Delete(h)), h) == []
    ensures forall m :: m in Apply(w, Delete(h)).mailbox ==> m.dst != h
  {
    StepOnNamed(w, Delete(h));
    SelectSplit(w.mailbox, h, h);
  }

  // ----- Spacing of dispatches -----------------------------------------------------------------

  /** The conditions the scheduler checks before it dispatches `h`. */
  ghost predicate CanBegin(w: World, h: nat, now: nat) {
    Live(w, h) && var t := TaskOf(w, h);
    t.active && t.fn != 0 && Due(t.nTicks, t.sTicks, now)
  }

  /** Every dispatch in the run passed those checks. */
  ghost predicate Legal(w: World, steps: seq<Step>) {
    forall k :: 0 <= k < |steps| && steps[k].Begin? ==> CanBegin(Run(w, steps[..k]), steps[k].h, steps[k].now)
  }

  predicate Timed(s: Step) {
    s.Create? || s.Resume? || s.SetPeriod? || s.Begin? || s.End?
  }

  /** Tick readings come in the order of real time. */
  ghost predicate Chronological(steps: seq<Step>) {
    forall j, k :: 0 <= j < k < |steps| && Timed(steps[j]) && Timed(steps[k]) ==> steps[j].now <= steps[k].now
  }

  /** The steps that reload the tick count of `h`. */
  predicate Reloads(s: Step, h: nat) {
    (s.Resume? || s.SetPeriod? || s.Begin?) && s.h == h
  }

  lemma {:induction false} ReloadSurvives(w: World, steps: seq<Step>, h: nat)
    requires WellFormed(w) && w.lastId + Creations(steps) < HANDLES && h <= w.lastId
    requires forall s :: s in steps ==> !Reloads(s, h)
    ensures Live(Run(w, steps), h) ==> Live(w, h)
    ensures Live(Run(w, steps), h) ==> SamePeriod(TaskOf(Run(w, steps), h), TaskOf(w, h))
  {
    if steps == [] {
    } else {
      var before, s := steps[..|steps| - 1], steps[|steps| - 1];
      ReloadSurvives(w, before, h);
      RunKeepsWellFormed(w, before);
      assert s in steps;
      StepKeepsReload(Run(w, before), s, h);
    }
  }

  predicate SamePeriod(t: Task, t': Task) {
    t.nTicks == t'.nTicks && t.sTicks == t'.sTicks
  }

  lemma StepKeepsReload(w: World, s: Step, h: nat)
    requires WellFormed(w) && (s.Create? ==> w.lastId + 1 < HANDLES)
    requires h <= w.lastId && !Reloads(s, h)
    ensures Live(Apply(w, s), h) ==> Live(w, h)
    ensures Live(Apply(w, s), h) ==> SamePeriod(TaskOf(Apply(w, s), h), TaskOf(w, h))
  {
    if !Names(s, h) {
      StepOnOthers(w, s, h);
    } else if Live(w, h) {
      StepOnNamed(w, s);
    }
  }

  lemma {:induction false} CreationsConcat(a: seq<Step>, b: seq<Step>)
    ensures Creations(a + b) == Creations(a) + Creations(b)
  {
    if b == [] {
      assert a + b == a;
    } else {
      CreationsConcat(a, b[..|b| - 1]);
      assert (a + b)[..|a + b| - 1] == a + b[..|b| - 1];
    }
  }

  /** A run up to `j` is the run up to `i`, the step at `i`, and the steps between. */
  lemma RunSplit(w: World, steps: seq<Step>, i: nat, j: nat)
    requires i < j <= |steps|
    ensures Run(w, steps[..j]) == Run(Apply(Run(w, steps[..i]), steps[i]), steps[i + 1..j])
    ensures Creations(steps[..i]) + (if steps[i].Create? then 1 else 0) + Creations(steps[i + 1..j]) <= Creations(steps)
  {
    var first, between := steps[..i] + [steps[i]], steps[i + 1..j];
    assert steps[..j] == first + between && steps == steps[..j] + steps[j..];
    RunOne(w, steps[..i], steps[i]);
    RunConcat(w, first, between);
    CreationsConcat(steps[..j], steps[j..]);
    CreationsConcat(first, between);
    assert first[..|first| - 1] == steps[..i];
  }

  /** Two consecutive dispatches of a task, with no resume or period reload of it in between, are
      at least its period of real ticks apart, across any number of counter wraps. */
  lemma DispatchSpacing(w: World, steps: seq<Step>, i: nat, j: nat)
    requires WellFormed(w) && w.lastId + Creations(steps) < HANDLES
    requires Legal(w, steps) && Chronological(steps)
    requires i < j < |steps| && steps[i].Begin? && steps[j].Begin? && steps[i].h == steps[j].h
    requires forall k :: i < k < j ==> !Reloads(steps[k], steps[i].h)
    ensures Live(Run(w, steps[..i]), steps[i].h)
    ensures steps[j].now - steps[i].now >= TaskOf(Run(w, steps[..i]), steps[i].h).sTicks
  {
    var h, between := steps[i].h, steps[i + 1..j];
    var w0 := Run(w, steps[..i]);
    assert CanBegin(w0, h, steps[i].now);
    assert CanBegin(Run(w, steps[..j]), h, steps[j].now);
    RunSplit(w, steps, i, j);
    RunKeepsWellFormed(w, steps[..i]);
    ReloadAfterBegin(w0, h, steps[i].now, between);
    DueMeansElapsed(steps[i].now, TaskOf(w0, h).sTicks, steps[j].now);
  }

  /** From a dispatch on, until the next reload, a task keeps the count it was reloaded with. */
  lemma ReloadAfterBegin(w: World, h: nat, at: nat, between: seq<Step>)
    requires WellFormed(w) && w.lastId + Creations(between) < HANDLES && Live(w, h)
    requires forall s :: s in between ==> !Reloads(s, h)
    ensures var w' := Run(Apply(w, Begin(h, at)), between);
      Live(w', h) ==> TaskOf(w', h).nTicks == Counter(at) && TaskOf(w', h).sTicks == TaskOf(w, h).sTicks
  {
    StepOnNamed(w, Begin(h, at));
    ApplyKeepsWellFormed(w, Begin(h, at));
    ReloadSurvives(Apply(w, Begin(h, at)), between, h);
  }

  // ----- Due after a reload, and never while suspended or deleted ------------------------------

  /** A task that has just been resumed is dispatched at the next check exactly as long as the gap to
      the check, modulo the counter, and its period do not pass the end of the counter. */
  lemma ResumedIsDue(w: World, h: nat, at: nat, check: nat)
    requires WellFormed(w) && Live(w, h) && at <= check
    requires TaskOf(w, h).fn != 0 && TaskOf(w, h).sTicks < WRAP
    ensures CanBegin(Apply(w, Resume(h, at)), h, check) <==> (check - at) % WRAP + TaskOf(w, h).sTicks < WRAP
  {
    StepOnNamed(w, Resume(h, at));
    ReloadIsDue(TaskOf(w, h).sTicks, at, check);
  }

  /** For example with the longest period: one tick after the resume the task is not due. */
  lemma ResumedExample()
    ensures var w := World([Task(1, false, High, 0xFFFF_FFFF, 0, 0, 1, [])], [], 1);
      !CanBegin(Apply(w, Resume(1, 0)), 1, 1)
  {
    var w := World([Task(1, false, High, 0xFFFF_FFFF, 0, 0, 1, [])], [], 1);
    assert Find(w.tasks, 1) == 0;
    ResumedIsDue(w, 1, 0, 1);
  }

  /** A new period counts from now, or is over at once if the task is to run. */
  lemma NewPeriodIsDue(w: World, h: nat, sTicks: nat, run: bool, at: nat, check: nat)
    requires WellFormed(w) && Live(w, h) && at <= check
    requires TaskOf(w, h).fn != 0 && TaskOf(w, h).active && sTicks < WRAP
    ensures CanBegin(Apply(w, SetPeriod(h, sTicks, run, at)), h, check) <==>
      if run then (check - at) % WRAP + sTicks < WRAP else (check - at) % WRAP >= sTicks
  {
    StepOnNamed(w, SetPeriod(h, sTicks, run, at));
    ReloadIsDue(sTicks, at, check);
    MinusIsGap(at, check);
  }

  lemma {:induction false} StaysSuspended(w: World, steps: seq<Step>, h: nat)
    requires WellFormed(w) && w.lastId + Creations(steps) < HANDLES && h <= w.lastId
    requires Live(w, h) ==> !TaskOf(w, h).active
    requires forall s :: s in steps ==> !(s.Resume? && s.h == h)
    ensures Live(Run(w, steps), h) ==> !TaskOf(Run(w, steps), h).active
  {
    if steps == [] {
    } else {
      var before, s := steps[..|steps| - 1], steps[|steps| - 1];
      StaysSuspended(w, before, h);
      RunKeepsWellFormed(w, before);
      assert s in steps;
      if !Names(s, h) {
        StepOnOthers(Run(w, before), s, h);
      } else if Live(Run(w, before), h) {
        StepOnNamed(Run(w, before), s);
      }
    }
  }

  /** Between a suspension, or a deletion, and the next resume a task is never dispatched. */
  lemma NoDispatchWhileOut(w: World, steps: seq<Step>, i: nat, j: nat)
    requires WellFormed(w) && w.lastId + Creations(steps) < HANDLES && Legal(w, steps)
    requires i < j < |steps| && (steps[i].Suspend? || steps[i].Delete?) && steps[i].h <= Run(w, steps[..i]).lastId
    requires forall k :: i < k < j ==> !(steps[k].Resume? && steps[k].h == steps[i].h)
    ensures !(steps[j].Begin? && steps[j].h == steps[i].h)
  {
    var h, w0, between := steps[i].h, Run(w, steps[..i]), steps[i + 1..j];
    RunSplit(w, steps, i, j);
    RunKeepsWellFormed(w, steps[..i]);
    var w1 := Apply(w0, steps[i]);
    ApplyKeepsWellFormed(w0, steps[i]);
    if Live(w0, h) {
      StepOnNamed(w0, steps[i]);
    }
    StaysSuspended(w1, between, h);
    assert steps[j].Begin? ==> CanBegin(Run(w, steps[..j]), steps[j].h, steps[j].now);
  }

  // ----- Idle accounting -----------------------------------------------------------------------

  /** As long as it is never deleted, the first task stays at the head of the list. */
  lemma {:induction false} HeadStays(w: World, steps: seq<Step>)
    requires WellFormed(w) && w.lastId + Creations(steps) < HANDLES && w.tasks != []
    requires Delete(w.tasks[0].id) !in steps
    ensures Run(w, steps).tasks != [] && Run(w, steps).tasks[0].id == w.tasks[0].id
  {
    if steps == [] {
    } else {
      var before, s := steps[..|steps| - 1], steps[|steps| - 1];
      HeadStays(w, before);
      RunKeepsWellFormed(w, before);
      FindAt(Run(w, before), 0);
      assert s in steps;
    }
  }

  function Elapsed(ts: seq<Task>): nat {
    if ts == [] then 0 else Elapsed(ts[..|ts| - 1]) + ts[|ts| - 1].eTicks
  }

  /** Elapsed ticks of every task other than `h`. */
  function ElapsedOthers(ts: seq<Task>, h: nat): nat {
    if ts == [] then 0 else
      ElapsedOthers(ts[..|ts| - 1], h) + if ts[|ts| - 1].id == h then 0 else ts[|ts| - 1].eTicks
  }

  /** Skipping the head of the list is skipping the idle task, and nothing else. */
  lemma {:induction false} SkippingHeadSkipsIdle(ts: seq<Task>)
    requires ts != []
    requires forall k :: 0 < k < |ts| ==> ts[k].id != ts[0].id
    ensures Elapsed(ts[1..]) == ElapsedOthers(ts, ts[0].id)
  {
    if |ts| == 1 {
    } else {
      SkippingHeadSkipsIdle(ts[..|ts| - 1]);
      assert ts[1..][..|ts| - 2] == ts[..|ts| - 1][1..];
    }
  }

  /** A dispatch leaves the real time spent in the task, counted in 32 bits, as its elapsed ticks,
      whatever the task function does short of deleting its own task. */
  lemma {:induction false} DispatchRecordsElapsed(w: World, h: nat, at: nat, body: seq<Step>, end: nat)
    requires WellFormed(w) && w.lastId + Creations(body) < HANDLES && Live(w, h) && at <= end
    requires forall s :: s in body ==> !s.Begin? && !s.End? && s != Delete(h)
    ensures var w' := Apply(Run(Apply(w, Begin(h, at)), body), End(h, end));
      Live(w', h) && TaskOf(w', h).eTicks == (end - at) % WRAP
  {
    var w1 := Apply(w, Begin(h, at));
    ApplyKeepsWellFormed(w, Begin(h, at));
    StepOnNamed(w, Begin(h, at));
    BodyKeepsSnapshot(w1, h, body);
    RunKeepsWellFormed(w1, body);
    StepOnNamed(Run(w1, body), End(h, end));
    MinusIsGap(at, end);
  }

  lemma {:induction false} BodyKeepsSnapshot(w: World, h: nat, body: seq<Step>)
    requires WellFormed(w) && w.lastId + Creations(body) < HANDLES && Live(w, h)
    requires forall s :: s in body ==> !s.Begin? && !s.End? && s != Delete(h)
    ensures Live(Run(w, body), h) && TaskOf(Run(w, body), h).eTicks == TaskOf(w, h).eTicks
  {
    if body == [] {
    } else {
      var before, s := body[..|body| - 1], body[|body| - 1];
      assert s in body && forall t :: t in before ==> t in body;
      BodyKeepsSnapshot(w, h, before);
      RunKeepsWellFormed(w, before);
      if Names(s, h) {
        StepOnNamed(Run(w, before), s);
      } else {
        StepOnOthers(Run(w, before), s, h);
      }
    }
  }
}

/** One pass of the scheduler: six scans of the task list, one for each entry of the priority cycle.

    A scan is described by the visits it makes. What the environment contributes to a visit is the
    time of the check, what the task function does if it is called, and the time at which it
    returns; everything else follows from the state.
 */
module SchedulerPass {
  import opened Ticks
  import opened SchedulerModel

  datatype Visit = Visit(at: nat, body: seq<Step>, end: nat)

  /** Where a scan stands: state, position in the list, steps taken so far, latest tick reading. */
  datatype Cursor = Cursor(w: World, i: nat, steps: seq<Step>, now: nat)

  /** The checks of the scheduler on a visited task. */
  predicate Runs(t: Task, p: Priority, now: nat) {
    t.active && t.fn != 0 && p == t.prio && Due(t.nTicks, t.sTicks, now)
  }

  function VisitSteps(t: Task, p: Priority, v: Visit): seq<Step> {
    if Runs(t, p, v.at) then [Begin(t.id, v.at)] + v.body + [End(t.id, v.end)] else []
  }

  /** The scan after one more visit. It moves on from wherever the visited task is by then. */
  function AfterVisit(c: Cursor, p: Priority, v: Visit): Cursor {
    if c.i >= |c.w.tasks| then c else
    var t := c.w.tasks[c.i];
    var steps := VisitSteps(t, p, v);
    var w := Run(c.w, steps);
    Cursor(w, Find(w.tasks, t.id) + 1, c.steps + steps, if Runs(t, p, v.at) then v.end else v.at)
  }

  /** The tick readings in `steps` are in order and between `from` and `to`. */
  ghost predicate Within(from: nat, steps: seq<Step>, to: nat) {
    if steps == [] then from <= to else
      var s := steps[|steps| - 1];
      if Timed(s) then s.now <= to && Within(from, steps[..|steps| - 1], s.now)
      else Within(from, steps[..|steps| - 1], to)
  }

  /** What a task function may do: call the interface of the scheduler, in any order, except to
      delete its own task or to exhaust the handles. */
  ghost predicate BodyOk(w: World, h: nat, v: Visit) {
    && (forall s :: s in v.body ==> !s.Begin? && !s.End? && s != Delete(h))
    && w.lastId + Creations(v.body) < HANDLES
    && Within(v.at, v.body, v.end)
  }

  ghost predicate VisitOk(c: Cursor, p: Priority, v: Visit) {
    && c.i < |c.w.tasks|
    && c.now <= v.at
    && (Runs(c.w.tasks[c.i], p, v.at) ==> BodyOk(c.w, c.w.tasks[c.i].id, v))
  }

  /** Where a scan for priority `p` stands after the visits `vs`. */
  function ScanEnd(c: Cursor, p: Priority, vs: seq<Visit>): Cursor {
    if vs == [] then c else AfterVisit(ScanEnd(c, p, vs[..|vs| - 1]), p, vs[|vs| - 1])
  }

  /** A scan can make the visits `vs` from `c`. */
  ghost predicate ScanOk(c: Cursor, p: Priority, vs: seq<Visit>) {
    vs == [] || (ScanOk(c, p, vs[..|vs| - 1]) && VisitOk(ScanEnd(c, p, vs[..|vs| - 1]), p, vs[|vs| - 1]))
  }

  /** The cursor at the head of the list, for the next scan. */
  function Rewind(c: Cursor): Cursor {
    c.(i := 0)
  }

  /** Where a pass stands after the scans `vss`. */
  function PassEnd(c: Cursor, vss: seq<seq<Visit>>): Cursor
    requires |vss| <= |CYCLE|
  {
    if vss == [] then c else ScanEnd(Rewind(PassEnd(c, vss[..|vss| - 1])), CYCLE[|vss| - 1], vss[|vss| - 1])
  }

  /** A pass can make the scans `vss` from `c`, each to the end of the list. */
  ghost predicate PassOk(c: Cursor, vss: seq<seq<Visit>>)
    requires |vss| <= |CYCLE|
  {
    vss == [] || (
      && PassOk(c, vss[..|vss| - 1])
      && ScanOk(Rewind(PassEnd(c, vss[..|vss| - 1])), CYCLE[|vss| - 1], vss[|vss| - 1])
      && PassEnd(c, vss).i >= |PassEnd(c, vss).w.tasks|)
  }

  function Begins(steps: seq<Step>, h: nat): nat {
    if steps == [] then 0 else
      Begins(steps[..|steps| - 1], h) + if steps[|steps| - 1].Begin? && steps[|steps| - 1].h == h then 1 else 0
  }

  /** The steps that take `h` out of a pass for priority `q` that lasts until `end`: it is deleted or
      suspended, gets another priority, or a period with which it is not due until then. */
  predicate Touches(s: Step, h: nat, q: Priority, end: nat) {
    match s
    case Delete(h') => h' == h
    case Suspend(h') => h' == h
    case SetPriority(h', prio) => h' == h && prio != q
    case SetPeriod(h', sTicks, run, now) => h' == h && sTicks != 0 && !(run && sTicks + end < WRAP + now)
    case _ => false
  }

  // ----- Order of the list ---------------------------------------------------------------------

  /** No step reorders the list: of two tasks the same one stays first, and new tasks go last. */
  lemma StepKeepsOrder(w: World, s: Step, a: nat, b: nat)
    requires WellFormed(w) && (s.Create? ==> w.lastId + 1 < HANDLES) && a != b
    requires Live(w, a) && Live(Apply(w, s), a) && Live(Apply(w, s), b)
    ensures Find(Apply(w, s).tasks, a) < Find(Apply(w, s).tasks, b)
        <==> !Live(w, b) || Find(w.tasks, a) < Find(w.tasks, b)
  {
    if s.Create? {
      FindAfterAppend(w.tasks, Apply(w, s).tasks[|w.tasks|], a);
      FindAfterAppend(w.tasks, Apply(w, s).tasks[|w.tasks|], b);
    } else if !s.Send? && Live(w, s.h) {
      if s.Delete? {
        FindAfterRemoval(w, Find(w.tasks, s.h), a);
        FindAfterRemoval(w, Find(w.tasks, s.h), b);
      } else {
        FindAfterPut(w, Updated(TaskOf(w, s.h), s, w.mailbox), a);
        FindAfterPut(w, Updated(TaskOf(w, s.h), s, w.mailbox), b);
      }
    }
  }

  /** A handle that has been given out never comes back to life. */
  lemma {:induction false} DeadStaysDead(w: World, steps: seq<Step>, h: nat)
    requires WellFormed(w) && w.lastId + Creations(steps) < HANDLES
    requires h <= w.lastId && !Live(w, h)
    ensures !Live(Run(w, steps), h)
  {
    if steps == [] {
    } else {
      var before, s := steps[..|steps| - 1], steps[|steps| - 1];
      DeadStaysDead(w, before, h);
      RunKeepsWellFormed(w, before);
      if !Names(s, h) {
        StepOnOthers(Run(w, before), s, h);
      }
    }
  }

  lemma LiveBefore(w: World, before: seq<Step>, s: Step, h: nat)
    requires WellFormed(w) && w.lastId + Creations(before) + (if s.Create? then 1 else 0) < HANDLES
    requires Live(w, h) && Live(Apply(Run(w, before), s), h)
    ensures Live(Run(w, before), h)
  {
    assert TaskOf(w, h).id <= w.lastId;
    RunKeepsWellFormed(w, before);
    if !Live(Run(w, before), h) && !Names(s, h) {
      StepOnOthers(Run(w, before), s, h);
    }
  }

  lemma {:induction false} RunKeepsOrder(w: World, steps: seq<Step>, a: nat, b: nat)
    requires WellFormed(w) && w.lastId + Creations(steps) < HANDLES && a != b
    requires Live(w, a) && Live(Run(w, steps), a) && Live(Run(w, steps), b)
    ensures Find(Run(w, steps).tasks, a) < Find(Run(w, steps).tasks, b)
        <==> !Live(w, b) || Find(w.tasks, a) < Find(w.tasks, b)
  {
    if steps == [] {
    } else {
      var before, s := steps[..|steps| - 1], steps[|steps| - 1];
      var mid := Run(w, before);
      RunKeepsWellFormed(w, before);
      LiveBefore(w, before, s, a);
      StepKeepsOrder(mid, s, a, b);
      if Live(mid, b) {
        RunKeepsOrder(w, before, a, b);
      } else if Live(w, b) {
        LiveBefore(w, before, s, b);
      }
    }
  }

  // ----- Visits --------------------------------------------------------------------------------

  lemma {:induction false} BeginsConcat(a: seq<Step>, b: seq<Step>, h: nat)
    ensures Begins(a + b, h) == Begins(a, h) + Begins(b, h)
  {
    if b == [] {
      assert a + b == a;
    } else {
      BeginsConcat(a, b[..|b| - 1], h);
      assert (a + b)[..|a + b| - 1] == a + b[..|b| - 1];
    }
  }

  lemma {:induction false} NoBegins(steps: seq<Step>, h: nat)
    requires forall s :: s in steps ==> !s.Begin?
    ensures Begins(steps, h) == 0
  {
    if steps == [] {
    } else {
      NoBegins(steps[..|steps| - 1], h);
      assert steps[|steps| - 1] in steps;
    }
  }

  /** A visit dispatches the visited task once if it passes the checks, and no other task. */
  lemma VisitBegins(t: Task, p: Priority, v: Visit, h: nat)
    requires Runs(t, p, v.at) ==> forall s :: s in v.body ==> !s.Begin?
    ensures Begins(VisitSteps(t, p, v), h) == if Runs(t, p, v.at) && h == t.id then 1 else 0
  {
    if Runs(t, p, v.at) {
      var first := [Begin(t.id, v.at)];
      BeginsConcat(first + v.body, [End(t.id, v.end)], h);
      BeginsConcat(first, v.body, h);
      NoBegins(v.body, h);
      assert first[..0] == [] && [End(t.id, v.end)][..0] == [];
    }
  }

  lemma VisitCreations(t: Task, p: Priority, v: Visit)
    ensures Creations(VisitSteps(t, p, v)) == if Runs(t, p, v.at) then Creations(v.body) else 0
  {
    if Runs(t, p, v.at) {
      var first := [Begin(t.id, v.at)];
      CreationsConcat(first + v.body, [End(t.id, v.end)]);
      CreationsConcat(first, v.body);
      assert first[..0] == [] && [End(t.id, v.end)][..0] == [];
    }
  }

  /** The visited task is still in the list when its function returns. */
  lemma {:induction false} SurvivesUnlessDeleted(w: World, steps: seq<Step>, h: nat)
    requires WellFormed(w) && w.lastId + Creations(steps) < HANDLES && Live(w, h)
    requires Delete(h) !in steps
    ensures Live(Run(w, steps), h)
  {
    if steps == [] {
    } else {
      var before, s := steps[..|steps| - 1], steps[|steps| - 1];
      SurvivesUnlessDeleted(w, before, h);
      RunKeepsWellFormed(w, before);
      assert s in steps;
      if Names(s, h) {
        StepOnNamed(Run(w, before), s);
      } else {
        StepOnOthers(Run(w, before), s, h);
      }
    }
  }

  /** What one visit guarantees about the state it leaves. */
  lemma VisitKeeps(c: Cursor, p: Priority, v: Visit)
    requires WellFormed(c.w) && VisitOk(c, p, v)
    ensures var c', h := AfterVisit(c, p, v), c.w.tasks[c.i].id;
      && var steps := VisitSteps(c.w.tasks[c.i], p, v);
      && c.w.lastId + Creations(steps) < HANDLES
      && WellFormed(c'.w) && c'.w.lastId == c.w.lastId + Creations(steps)
      && Live(c'.w, h) && c'.i == Find(c'.w.tasks, h) + 1 && c'.i <= |c'.w.tasks|
      && Live(c.w, h) && Find(c.w.tasks, h) == c.i
  {
    var t := c.w.tasks[c.i];
    var steps := VisitSteps(t, p, v);
    FindAt(c.w, c.i);
    VisitCreations(t, p, v);
    RunKeepsWellFormed(c.w, steps);
    SurvivesUnlessDeleted(c.w, steps, t.id);
  }

  // ----- At most once per scan -----------------------------------------------------------------

  /** Handles that the rest of the scan, or a later creation in it, may still come to. */
  ghost predicate Ahead(c: Cursor, h: nat) {
    h > c.w.lastId || (Live(c.w, h) && Find(c.w.tasks, h) >= c.i)
  }

  lemma VisitKeepsAhead(c: Cursor, p: Priority, v: Visit, h: nat)
    requires WellFormed(c.w) && VisitOk(c, p, v)
    requires Ahead(AfterVisit(c, p, v), h)
    ensures Ahead(c, h) && h != c.w.tasks[c.i].id
  {
    var t, c' := c.w.tasks[c.i], AfterVisit(c, p, v);
    VisitKeeps(c, p, v);
    if h <= c.w.lastId {
      if !Live(c.w, h) {
        DeadStaysDead(c.w, VisitSteps(t, p, v), h);
      }
      RunKeepsOrder(c.w, VisitSteps(t, p, v), t.id, h);
    }
  }

  /** Where a scan stands, as a run from its start. */
  ghost predicate ScanFrom(c0: Cursor, c: Cursor) {
    && WellFormed(c.w)
    && c0.steps <= c.steps
    && var steps := c.steps[|c0.steps|..];
      && c0.w.lastId + Creations(steps) < HANDLES
      && c.w == Run(c0.w, steps)
  }

  lemma {:induction false} ScanIsRun(c0: Cursor, p: Priority, vs: seq<Visit>)
    requires WellFormed(c0.w) && ScanOk(c0, p, vs)
    ensures ScanFrom(c0, ScanEnd(c0, p, vs))
  {
    if vs == [] {
      assert c0.steps[|c0.steps|..] == [];
    } else {
      var c, v := ScanEnd(c0, p, vs[..|vs| - 1]), vs[|vs| - 1];
      ScanIsRun(c0, p, vs[..|vs| - 1]);
      VisitIsRun(c, p, v);
      RunsCompose(c0, c, ScanEnd(c0, p, vs));
    }
  }

  lemma VisitIsRun(c: Cursor, p: Priority, v: Visit)
    requires WellFormed(c.w) && VisitOk(c, p, v)
    ensures ScanFrom(c, AfterVisit(c, p, v))
  {
    var steps := VisitSteps(c.w.tasks[c.i], p, v);
    VisitKeeps(c, p, v);
    assert (c.steps + steps)[|c.steps|..] == steps;
  }

  lemma RunsCompose(c0: Cursor, c1: Cursor, c2: Cursor)
    requires WellFormed(c0.w) && ScanFrom(c0, c1) && ScanFrom(c1, c2)
    ensures ScanFrom(c0, c2)
  {
    var a, b := c1.steps[|c0.steps|..], c2.steps[|c1.steps|..];
    assert c2.steps[|c0.steps|..] == a + b;
    RunConcat(c0.w, a, b);
    CreationsConcat(a, b);
    RunKeepsWellFormed(c0.w, a);
  }

  /** A scan dispatches no task twice, and none that it has yet to come to. */
  lemma {:induction false} ScanBeginsOnce(c0: Cursor, p: Priority, vs: seq<Visit>, h: nat)
    requires WellFormed(c0.w) && ScanOk(c0, p, vs) && c0.i == 0
    ensures var c := ScanEnd(c0, p, vs);
      && Begins(c.steps, h) - Begins(c0.steps, h) <= 1
      && (Ahead(c, h) ==> Begins(c.steps, h) == Begins(c0.steps, h))
      && Begins(c0.steps, h) <= Begins(c.steps, h)
  {
    if vs == [] {
    } else {
      var c, v := ScanEnd(c0, p, vs[..|vs| - 1]), vs[|vs| - 1];
      ScanBeginsOnce(c0, p, vs[..|vs| - 1], h);
      ScanIsRun(c0, p, vs[..|vs| - 1]);
      var t := c.w.tasks[c.i];
      BeginsConcat(c.steps, VisitSteps(t, p, v), h);
      VisitBegins(t, p, v, h);
      if Ahead(AfterVisit(c, p, v), h) {
        VisitKeepsAhead(c, p, v, h);
      } else {
        FindAt(c.w, c.i);
      }
    }
  }

  // ----- The multiplicity of a priority in the cycle -------------------------------------------

  lemma {:induction false} PriorityStays(w: World, steps: seq<Step>, h: nat)
    requires WellFormed(w) && w.lastId + Creations(steps) < HANDLES && h <= w.lastId
    requires forall s :: s in steps ==> !(s.SetPriority? && s.h == h)
    ensures Live(Run(w, steps), h) ==> Live(w, h) && TaskOf(Run(w, steps), h).prio == TaskOf(w, h).prio
  {
    if steps == [] {
    } else {
      var before, s := steps[..|steps| - 1], steps[|steps| - 1];
      PriorityStays(w, before, h);
      RunKeepsWellFormed(w, before);
      assert s in steps;
      if !Names(s, h) {
        StepOnOthers(Run(w, before), s, h);
      } else if Live(Run(w, before), h) {
        StepOnNamed(Run(w, before), s);
      }
    }
  }

  /** Priority `q` of `h` is not changed by the steps taken since `c0`. */
  ghost predicate FixedSince(c0: Cursor, c: Cursor, h: nat) {
    c0.steps <= c.steps && forall s :: s in c.steps[|c0.steps|..] ==> !(s.SetPriority? && s.h == h)
  }

  /** A scan for one priority never dispatches a task that keeps another. */
  lemma {:induction false} ScanSkipsOthers(c0: Cursor, p: Priority, vs: seq<Visit>, h: nat)
    requires WellFormed(c0.w) && ScanOk(c0, p, vs)
    requires h <= c0.w.lastId && (Live(c0.w, h) ==> TaskOf(c0.w, h).prio != p)
    requires FixedSince(c0, ScanEnd(c0, p, vs), h)
    ensures Begins(ScanEnd(c0, p, vs).steps, h) == Begins(c0.steps, h)
  {
    if vs == [] {
    } else {
      var c, v := ScanEnd(c0, p, vs[..|vs| - 1]), vs[|vs| - 1];
      var t := c.w.tasks[c.i];
      ScanIsRun(c0, p, vs[..|vs| - 1]);
      assert c.steps <= ScanEnd(c0, p, vs).steps;
      assert forall s :: s in c.steps[|c0.steps|..] ==> s in ScanEnd(c0, p, vs).steps[|c0.steps|..];
      ScanSkipsOthers(c0, p, vs[..|vs| - 1], h);
      BeginsConcat(c.steps, VisitSteps(t, p, v), h);
      VisitBegins(t, p, v, h);
      FindAt(c.w, c.i);
      PriorityStays(c0.w, c.steps[|c0.steps|..], h);
    }
  }

  /** How often priority `p` occurs among the first `n` entries of the cycle. */
  function Slots(p: Priority, n: nat): nat
    requires n <= |CYCLE|
  {
    if n == 0 then 0 else Slots(p, n - 1) + if CYCLE[n - 1] == p then 1 else 0
  }

  lemma SlotsInCycle()
    ensures Slots(High, |CYCLE|) == 3 && Slots(Normal, |CYCLE|) == 2 && Slots(Low, |CYCLE|) == 1
  {
    assert forall p, n :: 0 < n <= 6 ==> Slots(p, n) == Slots(p, n - 1) + if CYCLE[n - 1] == p then 1 else 0;
    assert Slots(High, 0) == Slots(Normal, 0) == Slots(Low, 0) == 0;
  }

  lemma {:induction false} PassIsRun(c0: Cursor, vss: seq<seq<Visit>>)
    requires |vss| <= |CYCLE| && WellFormed(c0.w) && PassOk(c0, vss)
    ensures ScanFrom(c0, PassEnd(c0, vss))
  {
    if vss == [] {
      assert c0.steps[|c0.steps|..] == [];
    } else {
      var n := |vss| - 1;
      var c1 := PassEnd(c0, vss[..n]);
      var c2 := PassEnd(c0, vss);
      PassIsRun(c0, vss[..n]);
      ScanIsRun(Rewind(c1), CYCLE[n], vss[n]);
      RunsCompose(c0, c1, c2);
    }
  }

  /** In one pass a task that keeps its priority is dispatched at most as often as the priority
      occurs in the cycle: three times for high, twice for normal, once for low. */
  lemma {:induction false} PassBeginsAtMost(c0: Cursor, vss: seq<seq<Visit>>, h: nat)
    requires |vss| <= |CYCLE| && WellFormed(c0.w) && PassOk(c0, vss)
    requires Live(c0.w, h) && FixedSince(c0, PassEnd(c0, vss), h)
    ensures Begins(PassEnd(c0, vss).steps, h) - Begins(c0.steps, h) <= Slots(TaskOf(c0.w, h).prio, |vss|)
  {
    if vss == [] {
    } else {
      var n := |vss| - 1;
      var c1 := PassEnd(c0, vss[..n]);
      var c2 := PassEnd(c0, vss);
      PassIsRun(c0, vss[..n]);
      ScanIsRun(Rewind(c1), CYCLE[n], vss[n]);
      assert forall s :: s in c1.steps[|c0.steps|..] ==> s in c2.steps[|c0.steps|..];
      assert forall s :: s in c2.steps[|c1.steps|..] ==> s in c2.steps[|c0.steps|..];
      PassBeginsAtMost(c0, vss[..n], h);
      PriorityStays(c0.w, c1.steps[|c0.steps|..], h);
      RunKeepsWellFormed(c0.w, c1.steps[|c0.steps|..]);
      if CYCLE[n] == TaskOf(c0.w, h).prio {
        ScanBeginsOnce(Rewind(c1), CYCLE[n], vss[n], h);
      } else {
        ScanSkipsOthers(Rewind(c1), CYCLE[n], vss[n], h);
      }
    }
  }

  // ----- At least once per pass ----------------------------------------------------------------

  /** `h` is active, has a function and priority `q`, and is due from `now` until `end`. */
  ghost predicate Ready(w: World, h: nat, q: Priority, now: nat, end: nat) {
    && now <= end && Live(w, h)
    && var t := TaskOf(w, h);
      && t.active && t.fn != 0 && t.prio == q
      && forall at :: now <= at <= end ==> Due(t.nTicks, t.sTicks, at)
  }

  lemma ReadyLater(w: World, h: nat, q: Priority, now: nat, later: nat, end: nat)
    requires Ready(w, h, q, now, end) && now <= later <= end
    ensures Ready(w, h, q, later, end)
  {
  }

  /** A resume in the middle of the pass keeps a ready task ready, and so does a period that fits. */
  lemma StepKeepsReady(w: World, s: Step, h: nat, q: Priority, now: nat, end: nat)
    requires WellFormed(w) && (s.Create? ==> w.lastId + 1 < HANDLES)
    requires Ready(w, h, q, now, end) && !DealsWith(s, h, q, end)
    requires Timed(s) ==> s.now == now
    ensures Ready(Apply(w, s), h, q, now, end)
  {
    if !Names(s, h) {
      StepOnOthers(w, s, h);
    } else {
      StepOnNamed(w, s);
      var t, t' := TaskOf(w, h), TaskOf(Apply(w, s), h);
      if s.Resume? {
        assert Due(t.nTicks, t.sTicks, now);
        DueThroughout(t.nTicks, t.sTicks, now, end);
        DueAfterReload(t.sTicks, now, end);
      } else if s.SetPeriod? {
        DueAfterReload(t'.sTicks, now, end);
      }
    }
  }

  /** With its count set back by its period a task is due until the end if the period fits. */
  lemma DueAfterReload(sTicks: nat, now: nat, end: nat)
    requires now <= end
    ensures sTicks == 0 || sTicks + (end - now) < WRAP ==>
      forall at :: now <= at <= end ==> Due(Minus(Counter(now), sTicks), sTicks, at)
  {
    if sTicks != 0 && sTicks + (end - now) < WRAP {
      MinusMinus(now, sTicks);
      DueThroughout(Minus(Counter(now), sTicks), sTicks, now, end);
    }
  }

  lemma MinusMinus(now: nat, sTicks: nat)
    requires sTicks < WRAP
    ensures Minus(Counter(now), Minus(Counter(now), sTicks)) == sTicks
  {
    var n := Minus(Counter(now), sTicks);
    ModShift(Counter(now) - n, sTicks, (Counter(now) - sTicks) / WRAP);
  }

  lemma {:induction false} RunKeepsReady(w: World, steps: seq<Step>, h: nat, q: Priority, from: nat, to: nat, end: nat)
    requires WellFormed(w) && w.lastId + Creations(steps) < HANDLES
    requires Ready(w, h, q, from, end) && Within(from, steps, to) && to <= end
    requires forall s :: s in steps ==> !DealsWith(s, h, q, end)
    ensures Ready(Run(w, steps), h, q, to, end)
  {
    if steps == [] {
      ReadyLater(w, h, q, from, to, end);
    } else {
      var before, s := steps[..|steps| - 1], steps[|steps| - 1];
      var mid := if Timed(s) then s.now else to;
      assert s in steps;
      RunKeepsReady(w, before, h, q, from, mid, end);
      RunKeepsWellFormed(w, before);
      StepKeepsReady(Run(w, before), s, h, q, mid, end);
      WithinOrdered(from, before, mid);
      ReadyLater(Apply(Run(w, before), s), h, q, mid, to, end);
    }
  }

  lemma {:induction false} WithinOrdered(from: nat, steps: seq<Step>, to: nat)
    requires Within(from, steps, to)
    ensures from <= to
  {
    if steps == [] {
    } else {
      var s := steps[|steps| - 1];
      WithinOrdered(from, steps[..|steps| - 1], if Timed(s) then s.now else to);
    }
  }

  lemma {:induction false} WithinAfterBegin(h: nat, from: nat, body: seq<Step>, to: nat)
    requires Within(from, body, to)
    ensures Within(from, [Begin(h, from)] + body, to)
  {
    var first := [Begin(h, from)];
    if body == [] {
      assert first + body == first && first[..0] == [];
    } else {
      var s := body[|body| - 1];
      assert (first + body)[..|body|] == first + body[..|body| - 1];
      WithinAfterBegin(h, from, body[..|body| - 1], if Timed(s) then s.now else to);
    }
  }

  lemma {:induction false} WithinConcat(a: nat, s: seq<Step>, b: nat, t: seq<Step>, c: nat)
    requires Within(a, s, b) && Within(b, t, c)
    ensures Within(a, s + t, c)
  {
    if t == [] {
      assert s + t == s;
      WithinLater(a, s, b, c);
    } else {
      var last := t[|t| - 1];
      assert (s + t)[..|s + t| - 1] == s + t[..|t| - 1];
      WithinConcat(a, s, b, t[..|t| - 1], if Timed(last) then last.now else c);
    }
  }

  lemma {:induction false} WithinLater(a: nat, s: seq<Step>, b: nat, c: nat)
    requires Within(a, s, b) && b <= c
    ensures Within(a, s, c)
  {
    if s == [] {
    } else if !Timed(s[|s| - 1]) {
      WithinLater(a, s[..|s| - 1], b, c);
    }
  }

  lemma VisitWithin(t: Task, p: Priority, v: Visit)
    requires Runs(t, p, v.at) && Within(v.at, v.body, v.end)
    ensures Within(v.at, VisitSteps(t, p, v), v.end)
  {
    var steps := [Begin(t.id, v.at)] + v.body;
    WithinAfterBegin(t.id, v.at, v.body, v.end);
    assert (steps + [End(t.id, v.end)])[..|steps|] == steps;
  }

  /** Since `c0`, the task `h` was dispatched, or taken out of the pass for `q` until `end`. */
  ghost predicate Dealt(c0: Cursor, c: Cursor, h: nat, q: Priority, end: nat) {
    exists k :: |c0.steps| <= k < |c.steps| && DealsWith(c.steps[k], h, q, end)
  }

  predicate DealsWith(s: Step, h: nat, q: Priority, end: nat) {
    Touches(s, h, q, end) || (s.Begin? && s.h == h)
  }

  /** A ready task passes the checks of a visit. */
  lemma ReadyRuns(w: World, i: nat, h: nat, q: Priority, at: nat, end: nat)
    requires WellFormed(w) && i < |w.tasks| && w.tasks[i].id == h && Ready(w, h, q, at, end)
    ensures Runs(w.tasks[i], q, at)
  {
    FindAt(w, i);
  }

  lemma VisitKeepsReady(c: Cursor, p: Priority, v: Visit, h: nat, q: Priority, end: nat)
    requires WellFormed(c.w) && VisitOk(c, p, v) && AfterVisit(c, p, v).now <= end
    requires Ready(c.w, h, q, c.now, end)
    requires forall s :: s in VisitSteps(c.w.tasks[c.i], p, v) ==> !DealsWith(s, h, q, end)
    ensures Ready(AfterVisit(c, p, v).w, h, q, AfterVisit(c, p, v).now, end)
    ensures p == q ==> c.w.tasks[c.i].id != h
  {
    var t, c' := c.w.tasks[c.i], AfterVisit(c, p, v);
    var steps := VisitSteps(t, p, v);
    VisitKeeps(c, p, v);
    if Runs(t, p, v.at) {
      VisitWithin(t, p, v);
      WithinOrdered(v.at, v.body, v.end);
      ReadyLater(c.w, h, q, c.now, v.at, end);
      assert steps[0] == Begin(t.id, v.at) && steps[0] in steps;
    } else {
      ReadyLater(c.w, h, q, c.now, v.at, end);
      if t.id == h && p == q {
        ReadyRuns(c.w, c.i, h, q, v.at, end);
      }
    }
    RunKeepsReady(c.w, steps, h, q, v.at, c'.now, end);
  }

  lemma VisitServes(c: Cursor, p: Priority, v: Visit, h: nat, q: Priority, end: nat)
    requires WellFormed(c.w) && VisitOk(c, p, v) && AfterVisit(c, p, v).now <= end
    requires Ready(c.w, h, q, c.now, end) && (p == q ==> Find(c.w.tasks, h) >= c.i)
    ensures var c' := AfterVisit(c, p, v);
      || Dealt(c, c', h, q, end)
      || (Ready(c'.w, h, q, c'.now, end) && (p == q ==> Find(c'.w.tasks, h) >= c'.i))
  {
    hide Within, BodyOk, Run, Find;
    var t, c' := c.w.tasks[c.i], AfterVisit(c, p, v);
    var steps := VisitSteps(t, p, v);
    if !Dealt(c, c', h, q, end) {
      forall s | s in steps
        ensures !DealsWith(s, h, q, end)
      {
        var k :| 0 <= k < |steps| && steps[k] == s;
        assert c'.steps[|c.steps| + k] == s;
      }
      VisitKeepsReady(c, p, v, h, q, end);
      if p == q {
        VisitKeeps(c, p, v);
        RunKeepsOrder(c.w, steps, t.id, h);
        assert h <= c.w.lastId;
      }
    }
  }

  lemma {:induction false} ScanServes(c0: Cursor, p: Priority, vs: seq<Visit>, h: nat, q: Priority, end: nat)
    requires WellFormed(c0.w) && ScanOk(c0, p, vs) && c0.i == 0
    requires Ready(c0.w, h, q, c0.now, end) && ScanEnd(c0, p, vs).now <= end
    ensures var c := ScanEnd(c0, p, vs);
      || Dealt(c0, c, h, q, end)
      || (Ready(c.w, h, q, c.now, end) && (p == q ==> Find(c.w.tasks, h) >= c.i))
  {
    if vs == [] {
    } else {
      var c, v := ScanEnd(c0, p, vs[..|vs| - 1]), vs[|vs| - 1];
      var c' := ScanEnd(c0, p, vs);
      ScanIsRun(c0, p, vs[..|vs| - 1]);
      VisitAdvancesTime(c, p, v);
      ScanServes(c0, p, vs[..|vs| - 1], h, q, end);
      assert c.steps <= c'.steps;
      if Dealt(c0, c, h, q, end) {
        var k :| |c0.steps| <= k < |c.steps| && DealsWith(c.steps[k], h, q, end);
        assert c'.steps[k] == c.steps[k];
      } else {
        VisitServes(c, p, v, h, q, end);
      }
    }
  }

  lemma VisitAdvancesTime(c: Cursor, p: Priority, v: Visit)
    requires VisitOk(c, p, v)
    ensures c.now <= AfterVisit(c, p, v).now
  {
    if Runs(c.w.tasks[c.i], p, v.at) {
      WithinOrdered(v.at, v.body, v.end);
    }
  }

  lemma {:induction false} ScanAdvancesTime(c0: Cursor, p: Priority, vs: seq<Visit>)
    requires ScanOk(c0, p, vs)
    ensures c0.now <= ScanEnd(c0, p, vs).now
  {
    if vs == [] {
    } else {
      ScanAdvancesTime(c0, p, vs[..|vs| - 1]);
      VisitAdvancesTime(ScanEnd(c0, p, vs[..|vs| - 1]), p, vs[|vs| - 1]);
    }
  }

  lemma {:induction false} PassServesSlots(c0: Cursor, vss: seq<seq<Visit>>, h: nat, q: Priority, end: nat)
    requires |vss| <= |CYCLE| && WellFormed(c0.w) && PassOk(c0, vss)
    requires Ready(c0.w, h, q, c0.now, end) && PassEnd(c0, vss).now <= end
    ensures var c := PassEnd(c0, vss);
      Dealt(c0, c, h, q, end) || (Ready(c.w, h, q, c.now, end) && Slots(q, |vss|) == 0)
  {
    if vss == [] {
    } else {
      var n := |vss| - 1;
      var c1, c2 := PassEnd(c0, vss[..n]), PassEnd(c0, vss);
      PassIsRun(c0, vss[..n]);
      ScanIsRun(Rewind(c1), CYCLE[n], vss[n]);
      ScanAdvancesTime(Rewind(c1), CYCLE[n], vss[n]);
      PassServesSlots(c0, vss[..n], h, q, end);
      if Dealt(c0, c1, h, q, end) {
        var k :| |c0.steps| <= k < |c1.steps| && DealsWith(c1.steps[k], h, q, end);
        assert c2.steps[k] == c1.steps[k];
      } else {
        ScanServes(Rewind(c1), CYCLE[n], vss[n], h, q, end);
        if Dealt(Rewind(c1), c2, h, q, end) {
          var k :| |c1.steps| <= k < |c2.steps| && DealsWith(c2.steps[k], h, q, end);
          assert |c0.steps| <= k;
        }
      }
    }
  }

  /** In one complete pass every task that is active and due from its start to its end is dispatched,
      unless something in the pass deletes or suspends it, or gives it another priority or a period
      with which it is not due until the end. */
  lemma PassServes(c0: Cursor, vss: seq<seq<Visit>>, h: nat, q: Priority)
    requires |vss| == |CYCLE| && WellFormed(c0.w) && PassOk(c0, vss)
    requires Ready(c0.w, h, q, c0.now, PassEnd(c0, vss).now)
    ensures Dealt(c0, PassEnd(c0, vss), h, q, PassEnd(c0, vss).now)
  {
    SlotsInCycle();
    PassServesSlots(c0, vss, h, q, PassEnd(c0, vss).now);
  }
}

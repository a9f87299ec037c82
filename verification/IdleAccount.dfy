/** The account of the idle task: which dispatches publish the processor usage, and what they publish.

    The idle task function reads the tick counter once to see whether a second has passed, and, if so,
    once more for its reload. The two readings of every call are what the environment contributes;
    everything else follows from the history of steps.
 */
module IdleAccount {
  import opened Ticks
  import opened SchedulerModel
  import opened SchedulerPass

  /** The task function that the scheduler brings along. */
  const IDLE := 1

  const TICKS_PER_SECOND := 1000

  /** `usage` is `busy` ticks as a percentage of a second, rounded down, and at most 100. */
  predicate Percentage(busy: nat, usage: nat) {
    usage <= 100 && if busy >= 1000 then usage == 100 else 10 * usage <= busy < 10 * usage + 10
  }

  /** `usage` is the time spent in all tasks behind the first. */
  ghost predicate Published(ts: seq<Task>, usage: nat) {
    Percentage(Elapsed(ts[if ts == [] then 0 else 1..]) % WRAP, usage)
  }

  /** The tick readings in one call of the idle task: that of the check, and that of the reload. */
  datatype Check = Check(at: nat, reload: nat)

  /** The readings of the calls, by the position of the dispatch in the history. */
  type Checks = map<nat, Check>

  /** The count that the idle task compares with after `n` steps: that of its last reload. */
  ghost function Since(n: nat, checks: Checks): nat
    decreases n, 0
  {
    if n == 0 then 0
    else if Publishes(n - 1, checks) then Counter(checks[n - 1].reload)
    else Since(n - 1, checks)
  }

  /** At the dispatch `k` the idle task finds that a second has passed. */
  ghost predicate Publishes(k: nat, checks: Checks)
    decreases k, 1
  {
    k in checks && Minus(Counter(checks[k].at), Since(k, checks)) >= TICKS_PER_SECOND
  }

  /** What has been published last, 0 at first. */
  ghost predicate Shows(steps: seq<Step>, checks: Checks, usage: nat) {
    if steps == [] then usage == 0
    else if Publishes(|steps| - 1, checks) then Published(Run(INITIAL, steps).tasks, usage)
    else Shows(steps[..|steps| - 1], checks, usage)
  }

  /** The step at `k` calls the idle task function. */
  ghost predicate CallsIdle(steps: seq<Step>, k: nat)
    requires k < |steps|
  {
    && steps[k].Begin?
    && var before := Run(INITIAL, steps[..k]);
      Live(before, steps[k].h) && TaskOf(before, steps[k].h).fn == IDLE
  }

  /** There is a check for every call of the idle task and for no other step, made in its time. */
  ghost predicate Checked(steps: seq<Step>, checks: Checks, now: nat) {
    && (forall k :: k in checks ==> k < |steps| && CallsIdle(steps, k))
    && (forall k :: 0 <= k < |steps| && CallsIdle(steps, k) ==> k in checks)
    && (forall k :: k in checks ==> steps[k].now <= checks[k].at <= checks[k].reload <= now)
    && (forall k, j :: k in checks && k < j < |steps| && Timed(steps[j]) ==> checks[k].reload <= steps[j].now)
  }

  /** The fields of the idle task after `steps`. */
  ghost predicate Accounted(steps: seq<Step>, checks: Checks, now: nat, usage: nat, since: nat) {
    Checked(steps, checks, now) && since == Since(|steps|, checks) && Shows(steps, checks, usage)
  }

  // ----- How the account goes on ---------------------------------------------------------------

  lemma AccountedStart(now: nat)
    ensures Accounted([], map[], now, 0, 0)
  {
  }

  lemma AccountedLater(steps: seq<Step>, checks: Checks, now: nat, now': nat, usage: nat, since: nat)
    requires Accounted(steps, checks, now, usage, since) && now <= now'
    ensures Accounted(steps, checks, now', usage, since)
  {
  }

  /** Whether an earlier step calls the idle task does not depend on what comes later. */
  lemma CallsIdlePrefix(steps: seq<Step>, s: Step, k: nat)
    requires k < |steps|
    ensures CallsIdle(steps + [s], k) <==> CallsIdle(steps, k)
  {
    assert (steps + [s])[..k] == steps[..k];
  }

  /** Any step but a call of the idle task leaves its fields alone. */
  lemma AccountedStep(steps: seq<Step>, s: Step, checks: Checks, now: nat, now': nat, usage: nat, since: nat)
    requires Accounted(steps, checks, now, usage, since) && now <= now'
    requires Timed(s) ==> now <= s.now <= now'
    requires !CallsIdle(steps + [s], |steps|)
    ensures Accounted(steps + [s], checks, now', usage, since)
  {
    hide CallsIdle, Published, Run;
    assert (steps + [s])[..|steps|] == steps;
    assert |steps| !in checks;
    forall k | 0 <= k < |steps|
      ensures CallsIdle(steps + [s], k) <==> CallsIdle(steps, k)
    {
      CallsIdlePrefix(steps, s, k);
    }
    assert Checked(steps + [s], checks, now');
    SinceNext(|steps|, checks);
    ShowsNext(steps + [s], checks, usage);
  }

  lemma {:induction false} AccountedSteps(steps: seq<Step>, body: seq<Step>, checks: Checks, now: nat, now': nat,
                                          usage: nat, since: nat)
    requires Accounted(steps, checks, now, usage, since) && Within(now, body, now')
    requires forall s :: s in body ==> !s.Begin?
    ensures Accounted(steps + body, checks, now', usage, since)
  {
    if body == [] {
      assert steps + body == steps;
      AccountedLater(steps, checks, now, now', usage, since);
    } else {
      hide Accounted;
      var before, s := body[..|body| - 1], body[|body| - 1];
      var mid := if Timed(s) then s.now else now';
      assert s in body;
      WithinOrdered(now, before, mid);
      AccountedSteps(steps, before, checks, now, mid, usage, since);
      AccountedStep(steps + before, s, checks, mid, now', usage, since);
      assert steps + before + [s] == steps + body;
    }
  }

  lemma {:induction false} SinceBefore(n: nat, checks: Checks, k: nat, c: Check)
    requires n <= k
    ensures Since(n, checks[k := c]) == Since(n, checks)
    ensures n < k ==> Publishes(n, checks[k := c]) == Publishes(n, checks)
  {
    if n == 0 {
    } else {
      SinceBefore(n - 1, checks, k, c);
    }
  }

  lemma {:induction false} ShowsBefore(steps: seq<Step>, checks: Checks, k: nat, c: Check, usage: nat)
    requires |steps| <= k
    ensures Shows(steps, checks[k := c], usage) == Shows(steps, checks, usage)
  {
    if steps == [] {
    } else {
      SinceBefore(|steps| - 1, checks, k, c);
      ShowsBefore(steps[..|steps| - 1], checks, k, c, usage);
    }
  }

  lemma CheckedIdle(steps: seq<Step>, s: Step, checks: Checks, now: nat, c: Check, now': nat)
    requires Checked(steps, checks, now) && CallsIdle(steps + [s], |steps|)
    requires now <= s.now <= c.at <= c.reload <= now'
    ensures Checked(steps + [s], checks[|steps| := c], now')
  {
    hide CallsIdle;
    BeginsIdle(steps + [s], |steps|);
    forall k | 0 <= k < |steps|
      ensures CallsIdle(steps + [s], k) <==> CallsIdle(steps, k)
    {
      CallsIdlePrefix(steps, s, k);
    }
  }

  lemma BeginsIdle(steps: seq<Step>, k: nat)
    requires k < |steps| && CallsIdle(steps, k)
    ensures steps[k].Begin?
  {
  }

  /** A call of the idle task publishes once a second has passed since the last reload. */
  lemma AccountedIdle(steps: seq<Step>, s: Step, checks: Checks, now: nat, usage: nat, since: nat,
                      c: Check, now': nat, usage': nat, since': nat)
    requires Accounted(steps, checks, now, usage, since) && CallsIdle(steps + [s], |steps|)
    requires now <= s.now <= c.at <= c.reload <= now'
    requires if Minus(Counter(c.at), since) >= 1000
      then Published(Run(INITIAL, steps + [s]).tasks, usage') && since' == Counter(c.reload)
      else usage' == usage && since' == since
    ensures Accounted(steps + [s], checks[|steps| := c], now', usage', since')
  {
    hide CallsIdle, Checked, Published, Run, Since, Shows;
    CheckedIdle(steps, s, checks, now, c, now');
    SinceBefore(|steps|, checks, |steps|, c);
    ShowsBefore(steps, checks, |steps|, c, usage);
    SinceNext(|steps|, checks[|steps| := c]);
    assert (steps + [s])[..|steps|] == steps;
    ShowsNext(steps + [s], checks[|steps| := c], usage');
  }

  lemma SinceNext(k: nat, checks: Checks)
    ensures Since(k + 1, checks) == if Publishes(k, checks) then Counter(checks[k].reload) else Since(k, checks)
  {
  }

  lemma ShowsNext(steps: seq<Step>, checks: Checks, usage: nat)
    requires steps != []
    ensures Shows(steps, checks, usage) <==>
      if Publishes(|steps| - 1, checks) then Published(Run(INITIAL, steps).tasks, usage)
      else Shows(steps[..|steps| - 1], checks, usage)
  {
  }

  // ----- What the account says -----------------------------------------------------------------

  /** The dispatch `k` is the last one that has published. */
  ghost predicate LastOf(k: nat, n: nat, checks: Checks) {
    k < n && Publishes(k, checks) && forall j :: k < j < n ==> !Publishes(j, checks)
  }

  /** Either nothing has been published, or the last publication is what is shown. */
  lemma {:induction false} ShowsLast(steps: seq<Step>, checks: Checks, usage: nat)
    requires Shows(steps, checks, usage)
    ensures (usage == 0 && forall k :: 0 <= k < |steps| ==> !Publishes(k, checks))
      || exists k :: LastOf(k, |steps|, checks) && Published(Run(INITIAL, steps[..k + 1]).tasks, usage)
  {
    if steps == [] {
    } else {
      hide Publishes, Published, Run;
      var n := |steps| - 1;
      if Publishes(n, checks) {
        assert steps[..n + 1] == steps;
        assert LastOf(n, |steps|, checks);
      } else {
        ShowsLast(steps[..n], checks, usage);
        if k :| LastOf(k, n, checks) && Published(Run(INITIAL, steps[..n][..k + 1]).tasks, usage) {
          assert steps[..n][..k + 1] == steps[..k + 1];
          assert LastOf(k, |steps|, checks);
        }
      }
    }
  }

  lemma {:induction false} SinceLast(k: nat, n: nat, checks: Checks)
    requires LastOf(k, n, checks)
    ensures k in checks && Since(n, checks) == Counter(checks[k].reload)
  {
    if n == k + 1 {
    } else {
      SinceLast(k, n - 1, checks);
    }
  }

  /** The idle task publishes exactly if at least a second of real ticks, modulo the counter, lies
      between the reload of its last publication and its check. */
  lemma PublishesEverySecond(steps: seq<Step>, checks: Checks, now: nat, k: nat, j: nat)
    requires Checked(steps, checks, now) && j < |steps| && j in checks && LastOf(k, j, checks)
    ensures k in checks && checks[k].reload <= checks[j].at
    ensures Publishes(j, checks) <==> (checks[j].at - checks[k].reload) % WRAP >= 1000
  {
    hide CallsIdle;
    SinceLast(k, j, checks);
    BeginsIdleAt(steps, checks, now, j);
    MinusIsGap(checks[k].reload, checks[j].at);
  }

  lemma BeginsIdleAt(steps: seq<Step>, checks: Checks, now: nat, j: nat)
    requires Checked(steps, checks, now) && j in checks
    ensures j < |steps| && steps[j].Begin?
  {
  }

  // ----- The idle task at the head of the list -------------------------------------------------

  /** The first step creates the idle task. */
  predicate StartsIdle(steps: seq<Step>) {
    steps != [] && steps[0].Create? && steps[0] == Create(true, High, 1, IDLE, steps[0].now)
  }

  /** As long as the idle task is never deleted, it is the head of the list, so what it publishes is the
      time spent in all tasks but itself. */
  lemma {:induction false} IdleIsSkipped(steps: seq<Step>)
    requires StartsIdle(steps) && Delete(1) !in steps && Creations(steps) < HANDLES
    ensures var w := Run(INITIAL, steps);
      w.tasks != [] && w.tasks[0].id == 1 && Elapsed(w.tasks[1..]) == ElapsedOthers(w.tasks, 1)
  {
    hide Run, Apply, Elapsed, ElapsedOthers, OwnMail;
    var w := Run(INITIAL, steps);
    IdleIsFirst(steps);
    RunKeepsWellFormed(INITIAL, steps);
    SkippingHeadSkipsIdle(w.tasks);
  }

  lemma IdleIsFirst(steps: seq<Step>)
    requires StartsIdle(steps) && Delete(1) !in steps && Creations(steps) < HANDLES
    ensures var w := Run(INITIAL, steps);
      w.tasks != [] && w.tasks[0].id == 1 && Live(w, 1) && TaskOf(w, 1).fn == IDLE
  {
    hide Run, Apply;
    var rest := steps[1..];
    var w1 := Apply(INITIAL, steps[0]);
    RunSplit(INITIAL, steps, 0, |steps|);
    RunNothing(INITIAL);
    assert steps[..|steps|] == steps && steps[..0] == [] && rest == steps[1..|steps|];
    FirstIsIdle(steps[0].now);
    HeadStays(w1, rest);
    FunctionStays(w1, rest, 1);
  }

  lemma RunNothing(w: World)
    ensures Run(w, []) == w
  {
  }

  lemma FirstIsIdle(now: nat)
    ensures var w := Apply(INITIAL, Create(true, High, 1, IDLE, now));
      WellFormed(w) && w.lastId == 1 && |w.tasks| == 1 && w.tasks[0].id == 1 && Live(w, 1) && TaskOf(w, 1).fn == IDLE
  {
  }

  /** A task that is not deleted keeps its function. */
  lemma {:induction false} FunctionStays(w: World, steps: seq<Step>, h: nat)
    requires WellFormed(w) && w.lastId + Creations(steps) < HANDLES && Live(w, h) && Delete(h) !in steps
    ensures Live(Run(w, steps), h) && TaskOf(Run(w, steps), h).fn == TaskOf(w, h).fn
  {
    if steps == [] {
    } else {
      var before, s := steps[..|steps| - 1], steps[|steps| - 1];
      FunctionStays(w, before, h);
      RunKeepsWellFormed(w, before);
      assert s in steps;
      if Names(s, h) {
        StepOnNamed(Run(w, before), s);
      } else {
        StepOnOthers(Run(w, before), s, h);
      }
    }
  }

  lemma StartStays(steps: seq<Step>, n: nat)
    requires StartsIdle(steps) && Delete(1) !in steps && Creations(steps) < HANDLES && 0 < n <= |steps|
    ensures StartsIdle(steps[..n]) && Delete(1) !in steps[..n] && Creations(steps[..n]) < HANDLES
  {
    assert steps == steps[..n] + steps[n..];
    CreationsConcat(steps[..n], steps[n..]);
  }

  /** Every dispatch of the idle task is checked. */
  lemma IdleIsChecked(steps: seq<Step>, checks: Checks, now: nat, k: nat)
    requires StartsIdle(steps) && Delete(1) !in steps && Creations(steps) < HANDLES && Checked(steps, checks, now)
    requires k < |steps| && steps[k].Begin? && steps[k].h == 1
    ensures k in checks
  {
    hide Run, Creations;
    StartStays(steps, k);
    IdleIsFirst(steps[..k]);
    assert CallsIdle(steps, k);
  }

  /** The usage shown is 0 before the first publication, and then the percentage of a second that
      exactly the tasks other than the idle task had used at the last publication. */
  lemma ShowsOthers(steps: seq<Step>, checks: Checks, usage: nat)
    requires StartsIdle(steps) && Delete(1) !in steps && Creations(steps) < HANDLES && Shows(steps, checks, usage)
    ensures (usage == 0 && forall k :: 0 <= k < |steps| ==> !Publishes(k, checks))
      || exists k :: LastOf(k, |steps|, checks) &&
           Percentage(ElapsedOthers(Run(INITIAL, steps[..k + 1]).tasks, 1) % WRAP, usage)
  {
    hide Run, Publishes, ElapsedOthers, Elapsed, Percentage, Creations;
    ShowsLast(steps, checks, usage);
    if k: nat :| LastOf(k, |steps|, checks) && Published(Run(INITIAL, steps[..k + 1]).tasks, usage) {
      StartStays(steps, k + 1);
      IdleIsSkipped(steps[..k + 1]);
    }
  }
}

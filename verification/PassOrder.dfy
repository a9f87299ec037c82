/** The order in which one pass serves the priorities, said over its steps: what a dispatch finds done
    before it, and what two dispatches find done between them.
 */
module PassOrder {
  import opened Ticks
  import opened SchedulerModel
  import opened SchedulerPass

  /** Step `k` of `steps`, taken from `w`, dispatches a task that has priority `p` at that moment. */
  ghost predicate BeginsAs(w: World, steps: seq<Step>, k: nat, p: Priority)
    requires k < |steps|
  {
    && steps[k].Begin?
    && var before := Run(w, steps[..k]);
      Live(before, steps[k].h) && TaskOf(before, steps[k].h).prio == p
  }

  /** Among the steps from `from` up to `to`, `h` is dispatched or taken out of the pass for `q`. */
  ghost predicate DealtIn(steps: seq<Step>, from: nat, to: nat, h: nat, q: Priority, end: nat) {
    exists m :: from <= m < to <= |steps| && DealsWith(steps[m], h, q, end)
  }

  /** Ready tasks of priority `q` come before any of priority `p`: high before all others, and normal
      before low. */
  predicate Precedes(q: Priority, p: Priority) {
    (q == High && p != High) || (q == Normal && p == Low)
  }

  /** Ready tasks of priority `q` come between a dispatch at priority `p1` and a later one at `p2`: high
      ones whenever the pass has gone from normal to low or back, or to another dispatch of the same
      task, and low ones between two dispatches of the same normal task. */
  predicate Separates(q: Priority, p1: Priority, p2: Priority, same: bool) {
    || (q == High && p1 != High && p2 != High && (p1 != p2 || same))
    || (q == Low && p1 == Normal && p2 == Normal && same)
  }

  /** What the dispatch at `k` finds done for `h`. */
  ghost predicate ServedBefore(w: World, start: nat, steps: seq<Step>, end: nat, k: nat, p: Priority,
                               h: nat, q: Priority)
    requires k < |steps|
  {
    BeginsAs(w, steps, k, p) && Precedes(q, p) && Ready(w, h, q, start, end) ==> DealtIn(steps, 0, k, h, q, end)
  }

  /** What is done for `h` between the dispatches at `i` and `j`. */
  ghost predicate ServedBetween(w: World, steps: seq<Step>, end: nat, i: nat, p1: Priority, j: nat, p2: Priority,
                                h: nat, q: Priority)
    requires i < j < |steps|
  {
    BeginsAs(w, steps, i, p1) && BeginsAs(w, steps, j, p2) && Separates(q, p1, p2, steps[i].h == steps[j].h) &&
    Ready(Run(w, steps[..i]), h, q, steps[i].now, end) ==>
      DealtIn(steps, i + 1, j, h, q, end)
  }

  /** A pass that makes the steps `steps` from `w` at time `start` serves the priorities in order. */
  ghost predicate Ordered(w: World, start: nat, steps: seq<Step>, end: nat) {
    && (forall k, p, h, q :: 0 <= k < |steps| ==> ServedBefore(w, start, steps, end, k, p, h, q))
    && (forall i, j, p1, p2, h, q :: 0 <= i < j < |steps| ==> ServedBetween(w, steps, end, i, p1, j, p2, h, q))
  }

  /** The steps between two cursors. */
  function New(c0: Cursor, c: Cursor): seq<Step>
    requires c0.steps <= c.steps
  {
    c.steps[|c0.steps|..]
  }

  // ----- Which scan a dispatch is in -----------------------------------------------------------

  lemma BeginsAsPrefix(w: World, a: seq<Step>, b: seq<Step>, k: nat, p: Priority)
    requires k < |a|
    ensures BeginsAs(w, a + b, k, p) <==> BeginsAs(w, a, k, p)
  {
    assert (a + b)[..k] == a[..k];
  }

  lemma BeginsAsShift(w: World, a: seq<Step>, b: seq<Step>, k: nat, p: Priority)
    requires k < |b|
    ensures BeginsAs(w, a + b, |a| + k, p) <==> BeginsAs(Run(w, a), b, k, p)
  {
    assert (a + b)[..|a| + k] == a + b[..k];
    RunConcat(w, a, b[..k]);
  }

  /** Every dispatch among the steps is of priority `p`. */
  ghost predicate AllBeginAs(w: World, steps: seq<Step>, p: Priority) {
    forall k :: 0 <= k < |steps| && steps[k].Begin? ==> BeginsAs(w, steps, k, p)
  }

  lemma AllBeginAsConcat(w: World, a: seq<Step>, b: seq<Step>, p: Priority)
    requires AllBeginAs(w, a, p) && AllBeginAs(Run(w, a), b, p)
    ensures AllBeginAs(w, a + b, p)
  {
    hide BeginsAs;
    forall k | 0 <= k < |a + b| && (a + b)[k].Begin?
      ensures BeginsAs(w, a + b, k, p)
    {
      if k < |a| {
        BeginsAsPrefix(w, a, b, k, p);
      } else {
        BeginsAsShift(w, a, b, k - |a|, p);
      }
    }
  }

  /** The only dispatch of a visit is its first step, at the priority of the scan. */
  lemma VisitBeginsAs(c: Cursor, p: Priority, v: Visit)
    requires WellFormed(c.w) && VisitOk(c, p, v)
    ensures AllBeginAs(c.w, VisitSteps(c.w.tasks[c.i], p, v), p)
  {
    var t := c.w.tasks[c.i];
    var steps := VisitSteps(t, p, v);
    FindAt(c.w, c.i);
    forall k | 0 < k < |steps|
      ensures !steps[k].Begin?
    {
      assert k < |steps| - 1 ==> steps[k] == v.body[k - 1] && v.body[k - 1] in v.body;
    }
    assert steps[..0] == [];
  }

  lemma NoneBegin(c: Cursor, p: Priority)
    ensures AllBeginAs(c.w, New(c, c), p)
  {
  }

  lemma ScanIsNew(c0: Cursor, p: Priority, vs: seq<Visit>)
    requires WellFormed(c0.w) && ScanOk(c0, p, vs)
    ensures var c := ScanEnd(c0, p, vs);
      WellFormed(c.w) && c0.steps <= c.steps && c.w == Run(c0.w, New(c0, c))
  {
    ScanIsRun(c0, p, vs);
  }

  lemma NewGrows(c0: Cursor, c: Cursor, c': Cursor, steps: seq<Step>)
    requires c0.steps <= c.steps && c'.steps == c.steps + steps
    ensures c0.steps <= c'.steps && New(c0, c') == New(c0, c) + steps
  {
  }

  lemma NewSplits(c0: Cursor, c1: Cursor, c: Cursor)
    requires c0.steps <= c1.steps <= c.steps
    ensures c0.steps <= c.steps && New(c0, c) == New(c0, c1) + New(c1, c)
  {
  }

  /** A scan for priority `p` only dispatches tasks of that priority. */
  lemma {:induction false} ScanBeginsAs(c0: Cursor, p: Priority, vs: seq<Visit>)
    requires WellFormed(c0.w) && ScanOk(c0, p, vs) && c0.steps <= ScanEnd(c0, p, vs).steps
    ensures AllBeginAs(c0.w, New(c0, ScanEnd(c0, p, vs)), p)
  {
    if vs == [] {
      NoneBegin(c0, p);
    } else {
      hide VisitOk, Run, VisitSteps, WellFormed, AfterVisit, AllBeginAs, New;
      var c, v := ScanEnd(c0, p, vs[..|vs| - 1]), vs[|vs| - 1];
      ScanIsNew(c0, p, vs[..|vs| - 1]);
      VisitHasTask(c, p, v);
      var steps := VisitSteps(c.w.tasks[c.i], p, v);
      NewGrows(c0, c, ScanEnd(c0, p, vs), steps);
      ScanBeginsAs(c0, p, vs[..|vs| - 1]);
      VisitBeginsAs(c, p, v);
      AllBeginAsConcat(c0.w, New(c0, c), steps, p);
    }
  }

  lemma VisitHasTask(c: Cursor, p: Priority, v: Visit)
    requires VisitOk(c, p, v)
    ensures c.i < |c.w.tasks| && AfterVisit(c, p, v).steps == c.steps + VisitSteps(c.w.tasks[c.i], p, v)
  {
  }

  /** The first `m` scans of a pass are a part of it. */
  lemma {:induction false} PassPart(c0: Cursor, vss: seq<seq<Visit>>, m: nat)
    requires m <= |vss| <= |CYCLE| && WellFormed(c0.w) && PassOk(c0, vss)
    ensures PassOk(c0, vss[..m]) && WellFormed(PassEnd(c0, vss[..m]).w)
    ensures c0.steps <= PassEnd(c0, vss[..m]).steps <= PassEnd(c0, vss).steps
    ensures PassEnd(c0, vss[..m]).now <= PassEnd(c0, vss).now
  {
    hide WellFormed, ScanOk, ScanEnd, Run, Creations;
    PassIsRun(c0, vss);
    if m == |vss| {
      assert vss[..m] == vss;
    } else {
      var n := |vss| - 1;
      PassPart(c0, vss[..n], m);
      PassIsRun(c0, vss[..n]);
      assert vss[..n][..m] == vss[..m];
      ScanIsRun(Rewind(PassEnd(c0, vss[..n])), CYCLE[n], vss[n]);
      ScanAdvancesTime(Rewind(PassEnd(c0, vss[..n])), CYCLE[n], vss[n]);
    }
  }

  /** The length of the first `m` scans. */
  function Mark(c0: Cursor, vss: seq<seq<Visit>>, m: nat): int
    requires m <= |vss| <= |CYCLE|
  {
    |PassEnd(c0, vss[..m]).steps| - |c0.steps|
  }

  /** The scan that step `k` is in. */
  lemma {:induction false} ScanOf(c0: Cursor, vss: seq<seq<Visit>>, k: nat) returns (m: nat)
    requires 0 < |vss| <= |CYCLE| && k < Mark(c0, vss, |vss|)
    ensures m < |vss| && Mark(c0, vss, m) <= k < Mark(c0, vss, m + 1)
  {
    var n := |vss| - 1;
    assert vss[..n + 1] == vss;
    if Mark(c0, vss, n) <= k {
      m := n;
    } else {
      assert vss[..0] == [] && vss[..n][..n] == vss[..n];
      m := ScanOf(c0, vss[..n], k);
      assert vss[..n][..m] == vss[..m] && vss[..n][..m + 1] == vss[..m + 1];
    }
  }

  /** Scan `m` of a pass. */
  lemma ScanInPass(c0: Cursor, vss: seq<seq<Visit>>, m: nat)
    requires m < |vss| <= |CYCLE| && WellFormed(c0.w) && PassOk(c0, vss)
    ensures var c1, c2 := PassEnd(c0, vss[..m]), PassEnd(c0, vss[..m + 1]);
      && WellFormed(c1.w) && c2 == ScanEnd(Rewind(c1), CYCLE[m], vss[m]) && ScanOk(Rewind(c1), CYCLE[m], vss[m])
      && c2.i >= |c2.w.tasks| && c0.steps <= c1.steps <= c2.steps <= PassEnd(c0, vss).steps
      && c1.w == Run(c0.w, New(c0, c1)) && c1.now <= c2.now <= PassEnd(c0, vss).now
  {
    hide WellFormed, ScanOk, ScanEnd, Run, Creations;
    PassPart(c0, vss, m);
    PassPart(c0, vss, m + 1);
    PassIsRun(c0, vss[..m]);
    assert vss[..m + 1][..m] == vss[..m] && |vss[..m + 1]| == m + 1;
    ScanAdvancesTime(Rewind(PassEnd(c0, vss[..m])), CYCLE[m], vss[m]);
    ScanIsRun(Rewind(PassEnd(c0, vss[..m])), CYCLE[m], vss[m]);
  }

  /** A dispatch at step `k` of a pass has the priority of the scan it is in. */
  lemma PassBeginsAs(c0: Cursor, vss: seq<seq<Visit>>, k: nat, m: nat, p: Priority)
    requires m < |vss| <= |CYCLE| && WellFormed(c0.w) && PassOk(c0, vss)
    requires Mark(c0, vss, m) <= k < Mark(c0, vss, m + 1)
    requires c0.steps <= PassEnd(c0, vss).steps && k < |New(c0, PassEnd(c0, vss))|
    requires BeginsAs(c0.w, New(c0, PassEnd(c0, vss)), k, p)
    ensures p == CYCLE[m]
  {
    hide PassOk, PassEnd, ScanOk, ScanEnd, WellFormed, BeginsAs, Run;
    var c1, c2, c := PassEnd(c0, vss[..m]), PassEnd(c0, vss[..m + 1]), PassEnd(c0, vss);
    ScanInPass(c0, vss, m);
    var a, b, rest := New(c0, c1), New(c1, c2), New(c2, c);
    assert New(c0, c) == (a + b) + rest;
    BeginsAsPrefix(c0.w, a + b, rest, k, p);
    BeginsAsShift(c0.w, a, b, k - |a|, p);
    BeginsAtOnePriority(c1.w, b, k - |a|, p, CYCLE[m]);
    ScanBeginsAs(Rewind(c1), CYCLE[m], vss[m]);
  }

  lemma BeginsAtOnePriority(w: World, steps: seq<Step>, k: nat, p: Priority, q: Priority)
    requires k < |steps|
    ensures BeginsAs(w, steps, k, p) ==> steps[k].Begin?
    ensures BeginsAs(w, steps, k, p) && BeginsAs(w, steps, k, q) ==> p == q
  {
  }

  // ----- Before the first dispatch of a priority -----------------------------------------------

  lemma DealtIsIn(c0: Cursor, a: Cursor, b: Cursor, c: Cursor, from: int, to: int, h: nat, q: Priority, end: nat)
    requires c0.steps <= a.steps <= b.steps <= c.steps && Dealt(a, b, h, q, end)
    requires 0 <= from <= |a.steps| - |c0.steps| && |b.steps| - |c0.steps| <= to
    ensures to <= |New(c0, c)| ==> DealtIn(New(c0, c), from, to, h, q, end)
  {
    hide DealsWith;
    var j :| |a.steps| <= j < |b.steps| && DealsWith(b.steps[j], h, q, end);
    assert New(c0, c)[j - |c0.steps|] == b.steps[j];
  }

  /** Every ready task of a priority that precedes that of a dispatch has been dealt with before it. */
  lemma PassServesBefore(c0: Cursor, vss: seq<seq<Visit>>, k: nat, p: Priority, h: nat, q: Priority)
    requires |vss| == |CYCLE| && WellFormed(c0.w) && PassOk(c0, vss)
    requires c0.steps <= PassEnd(c0, vss).steps && k < |New(c0, PassEnd(c0, vss))|
    ensures ServedBefore(c0.w, c0.now, New(c0, PassEnd(c0, vss)), PassEnd(c0, vss).now, k, p, h, q)
  {
    hide PassOk, PassEnd, ScanOk, ScanEnd, WellFormed, BeginsAs, Ready, Dealt, DealtIn, Slots, Run;
    var c := PassEnd(c0, vss);
    if BeginsAs(c0.w, New(c0, c), k, p) && Precedes(q, p) && Ready(c0.w, h, q, c0.now, c.now) {
      assert vss[..|vss|] == vss;
      var m := ScanOf(c0, vss, k);
      PassBeginsAs(c0, vss, k, m, p);
      ScanInPass(c0, vss, m);
      PassPart(c0, vss, m);
      SlotsBefore(m, q);
      PassServesSlots(c0, vss[..m], h, q, c.now);
      DealtIsIn(c0, c0, PassEnd(c0, vss[..m]), c, 0, k, h, q, c.now);
    }
  }

  /** The cycle starts with high, and goes to normal before low. */
  lemma SlotsBefore(m: nat, q: Priority)
    requires m < |CYCLE|
    ensures Precedes(q, CYCLE[m]) ==> Slots(q, m) > 0
  {
    assert forall p, n :: 0 < n <= 6 ==> Slots(p, n) == Slots(p, n - 1) + if CYCLE[n - 1] == p then 1 else 0;
  }

  // ----- Between two dispatches ----------------------------------------------------------------

  /** Between the scans of two separated dispatches there is one for the priority that separates them. */
  lemma SeparatingScan(q: Priority, m1: nat, m2: nat, same: bool) returns (m: nat)
    requires m1 <= m2 < |CYCLE| && Separates(q, CYCLE[m1], CYCLE[m2], same) && (same ==> m1 < m2)
    ensures m1 < m < m2 && CYCLE[m] == q
  {
    m := if q == High then (if m1 == 1 then 2 else 4) else 3;
  }

  lemma {:induction false} TwoBegins(steps: seq<Step>, i: nat, j: nat)
    requires i < j < |steps| && steps[i].Begin? && steps[j].Begin? && steps[i].h == steps[j].h
    ensures Begins(steps, steps[i].h) >= 2
  {
    var h := steps[i].h;
    assert steps == steps[..j] + steps[j..] && steps[..j] == steps[..i] + steps[i..j];
    BeginsConcat(steps[..j], steps[j..], h);
    BeginsConcat(steps[..i], steps[i..j], h);
    StartsWithBegin(steps[i..j]);
    StartsWithBegin(steps[j..]);
  }

  lemma StartsWithBegin(steps: seq<Step>)
    requires steps != [] && steps[0].Begin?
    ensures Begins(steps, steps[0].h) >= 1
  {
    assert steps == [steps[0]] + steps[1..] && [steps[0]][..0] == [];
    BeginsConcat([steps[0]], steps[1..], steps[0].h);
  }

  /** Two dispatches of one task are in different scans. */
  lemma SameTaskOtherScan(c0: Cursor, vss: seq<seq<Visit>>, i: nat, j: nat, m: nat)
    requires m < |vss| <= |CYCLE| && WellFormed(c0.w) && PassOk(c0, vss)
    requires c0.steps <= PassEnd(c0, vss).steps && i < j < |New(c0, PassEnd(c0, vss))|
    requires Mark(c0, vss, m) <= i && j < Mark(c0, vss, m + 1)
    requires var steps := New(c0, PassEnd(c0, vss)); steps[i].Begin? && steps[j].Begin?
    ensures var steps := New(c0, PassEnd(c0, vss)); steps[i].h != steps[j].h
  {
    hide PassOk, PassEnd, ScanOk, ScanEnd, WellFormed, Begins, Run;
    var c1, c2, c := PassEnd(c0, vss[..m]), PassEnd(c0, vss[..m + 1]), PassEnd(c0, vss);
    ScanInPass(c0, vss, m);
    var a, b, steps := New(c0, c1), New(c1, c2), New(c0, c);
    assert b[i - |a|] == steps[i] && b[j - |a|] == steps[j];
    ScanBeginsOnce(Rewind(c1), CYCLE[m], vss[m], steps[i].h);
    assert c2.steps == c1.steps + b;
    BeginsConcat(c1.steps, b, steps[i].h);
    if steps[i].h == steps[j].h {
      TwoBegins(b, i - |a|, j - |a|);
    }
  }

  lemma {:induction false} WithinEarlier(a: nat, b: nat, s: seq<Step>, c: nat)
    requires Within(b, s, c) && a <= b
    ensures Within(a, s, c)
  {
    if s == [] {
    } else {
      var last := s[|s| - 1];
      WithinEarlier(a, b, s[..|s| - 1], if Timed(last) then last.now else c);
    }
  }

  lemma {:induction false} WithinSuffix(from: nat, a: seq<Step>, b: seq<Step>, to: nat)
    requires Within(from, a + b, to) && b != [] && Timed(b[0])
    ensures Within(b[0].now, b, to)
  {
    var last := b[|b| - 1];
    assert (a + b)[..|a + b| - 1] == a + b[..|b| - 1];
    if |b| == 1 {
      assert b[..0] == [];
    } else {
      WithinSuffix(from, a, b[..|b| - 1], if Timed(last) then last.now else to);
    }
  }

  lemma {:induction false} ScanWithin(c0: Cursor, p: Priority, vs: seq<Visit>)
    requires WellFormed(c0.w) && ScanOk(c0, p, vs)
    ensures var c := ScanEnd(c0, p, vs);
      c0.steps <= c.steps && Within(c0.now, New(c0, c), c.now)
  {
    if vs == [] {
    } else {
      hide Run, WellFormed, BodyOk, New, Within;
      var c, v := ScanEnd(c0, p, vs[..|vs| - 1]), vs[|vs| - 1];
      ScanIsNew(c0, p, vs[..|vs| - 1]);
      ScanWithin(c0, p, vs[..|vs| - 1]);
      VisitHasTask(c, p, v);
      VisitStepsWithin(c, p, v);
      var steps := VisitSteps(c.w.tasks[c.i], p, v);
      NewGrows(c0, c, ScanEnd(c0, p, vs), steps);
      WithinConcat(c0.now, New(c0, c), c.now, steps, AfterVisit(c, p, v).now);
    }
  }

  lemma VisitStepsWithin(c: Cursor, p: Priority, v: Visit)
    requires VisitOk(c, p, v)
    ensures Within(c.now, VisitSteps(c.w.tasks[c.i], p, v), AfterVisit(c, p, v).now)
  {
    var t := c.w.tasks[c.i];
    if Runs(t, p, v.at) {
      VisitWithin(t, p, v);
      WithinEarlier(c.now, v.at, VisitSteps(t, p, v), v.end);
    }
  }

  lemma {:induction false} PassWithin(c0: Cursor, vss: seq<seq<Visit>>)
    requires |vss| <= |CYCLE| && WellFormed(c0.w) && PassOk(c0, vss)
    ensures var c := PassEnd(c0, vss);
      c0.steps <= c.steps && Within(c0.now, New(c0, c), c.now)
  {
    if vss == [] {
    } else {
      hide Within, WellFormed, ScanOk, ScanEnd, Run, Creations, New;
      var n := |vss| - 1;
      var c1, c := PassEnd(c0, vss[..n]), PassEnd(c0, vss);
      PassWithin(c0, vss[..n]);
      PassIsRun(c0, vss[..n]);
      ScanWithin(Rewind(c1), CYCLE[n], vss[n]);
      NewSplits(c0, c1, c);
      WithinConcat(c0.now, New(c0, c1), c1.now, New(c1, c), c.now);
    }
  }

  /** A task that is ready at a dispatch of another one is dealt with, or still ready at the end. */
  lemma RunKeepsReadyFrom(w: World, from: nat, steps: seq<Step>, to: nat, i: nat, h: nat, q: Priority, end: nat)
    requires WellFormed(w) && w.lastId + Creations(steps) < HANDLES && Within(from, steps, to) && to <= end
    requires i < |steps| && steps[i].Begin? && steps[i].h != h
    requires Ready(Run(w, steps[..i]), h, q, steps[i].now, end)
    ensures DealtIn(steps, i + 1, |steps|, h, q, end) || Ready(Run(w, steps), h, q, to, end)
  {
    hide WellFormed, Ready, Run, Within, Creations;
    var a, b := steps[..i], steps[i..];
    assert steps == a + b && b[0] == steps[i];
    WithinSuffix(from, a, b, to);
    RunConcat(w, a, b);
    CreationsConcat(a, b);
    RunKeepsWellFormed(w, a);
    if forall s :: s in b ==> !DealsWith(s, h, q, end) {
      RunKeepsReady(Run(w, a), b, h, q, b[0].now, to, end);
    } else {
      var s :| s in b && DealsWith(s, h, q, end);
      var k :| 0 <= k < |b| && b[k] == s;
      assert steps[i + k] == s && k != 0;
    }
  }

  lemma ReadyUntilScan(c0: Cursor, vss: seq<seq<Visit>>, i: nat, m: nat, h: nat, q: Priority, end: nat)
    requires m < |vss| <= |CYCLE| && WellFormed(c0.w) && PassOk(c0, vss)
    requires c0.steps <= PassEnd(c0, vss).steps && i < Mark(c0, vss, m) <= |New(c0, PassEnd(c0, vss))|
    requires PassEnd(c0, vss).now <= end
    requires var steps := New(c0, PassEnd(c0, vss));
      && steps[i].Begin? && steps[i].h != h
      && Ready(Run(c0.w, steps[..i]), h, q, steps[i].now, end)
    ensures DealtIn(New(c0, PassEnd(c0, vss)), i + 1, Mark(c0, vss, m), h, q, end)
      || Ready(PassEnd(c0, vss[..m]).w, h, q, PassEnd(c0, vss[..m]).now, end)
  {
    hide PassOk, PassEnd, ScanOk, ScanEnd, WellFormed, Ready, Run, Within, Creations, DealtIn;
    var c1, c := PassEnd(c0, vss[..m]), PassEnd(c0, vss);
    ScanInPass(c0, vss, m);
    PassPart(c0, vss, m);
    PassIsRun(c0, vss[..m]);
    PassWithin(c0, vss[..m]);
    var steps := New(c0, c1);
    assert New(c0, c)[..|steps|] == steps && New(c0, c)[..i] == steps[..i];
    RunKeepsReadyFrom(c0.w, c0.now, steps, c1.now, i, h, q, end);
    DealtInPrefix(New(c0, c), |steps|, i + 1, h, q, end);
  }

  lemma DealtInPrefix(steps: seq<Step>, n: nat, from: nat, h: nat, q: Priority, end: nat)
    requires n <= |steps|
    ensures DealtIn(steps[..n], from, n, h, q, end) ==> DealtIn(steps, from, n, h, q, end)
  {
  }

  /** A complete scan for its priority deals with a ready task. */
  lemma ScanDeals(c0: Cursor, q: Priority, vs: seq<Visit>, h: nat, end: nat)
    requires WellFormed(c0.w) && ScanOk(c0, q, vs) && c0.i == 0
    requires Ready(c0.w, h, q, c0.now, end) && ScanEnd(c0, q, vs).now <= end
    requires ScanEnd(c0, q, vs).i >= |ScanEnd(c0, q, vs).w.tasks|
    ensures Dealt(c0, ScanEnd(c0, q, vs), h, q, end)
  {
    ScanServes(c0, q, vs, h, q, end);
  }

  /** Every task that is ready at one dispatch and separates it from a later one has been dealt with
      between the two. */
  lemma PassServesBetween(c0: Cursor, vss: seq<seq<Visit>>, i: nat, p1: Priority, j: nat, p2: Priority,
                          h: nat, q: Priority)
    requires |vss| == |CYCLE| && WellFormed(c0.w) && PassOk(c0, vss)
    requires c0.steps <= PassEnd(c0, vss).steps && i < j < |New(c0, PassEnd(c0, vss))|
    ensures ServedBetween(c0.w, New(c0, PassEnd(c0, vss)), PassEnd(c0, vss).now, i, p1, j, p2, h, q)
  {
    hide PassOk, PassEnd, ScanOk, ScanEnd, WellFormed, BeginsAs, Ready, Dealt, DealtIn, Run;
    var c := PassEnd(c0, vss);
    var steps, end := New(c0, c), c.now;
    BeginsAtOnePriority(c0.w, steps, i, p1, p1);
    BeginsAtOnePriority(c0.w, steps, j, p2, p2);
    if && BeginsAs(c0.w, steps, i, p1) && BeginsAs(c0.w, steps, j, p2)
       && Separates(q, p1, p2, steps[i].h == steps[j].h) && Ready(Run(c0.w, steps[..i]), h, q, steps[i].now, end)
    {
      assert vss[..|vss|] == vss;
      var m1 := ScanOf(c0, vss, i);
      var m2 := ScanOf(c0, vss, j);
      PassBeginsAs(c0, vss, i, m1, p1);
      PassBeginsAs(c0, vss, j, m2, p2);
      OtherIsReady(c0.w, steps, i, p1, h, q, end);
      var m := ScanBetween(c0, vss, i, m1, j, m2, q);
      PassServesScan(c0, vss, i, m, j, h, q);
    }
  }

  lemma OtherIsReady(w: World, steps: seq<Step>, i: nat, p: Priority, h: nat, q: Priority, end: nat)
    requires i < |steps| && BeginsAs(w, steps, i, p) && p != q
    requires Ready(Run(w, steps[..i]), h, q, steps[i].now, end)
    ensures steps[i].Begin? && steps[i].h != h
  {
  }

  lemma MarkGrows(c0: Cursor, vss: seq<seq<Visit>>, m: nat, n: nat)
    requires m <= n <= |vss| <= |CYCLE| && WellFormed(c0.w) && PassOk(c0, vss)
    ensures 0 <= Mark(c0, vss, m) <= Mark(c0, vss, n)
  {
    hide PassOk, PassEnd, WellFormed;
    PassPart(c0, vss, n);
    PassPart(c0, vss[..n], m);
    assert vss[..n][..m] == vss[..m];
  }

  /** Between the scans of two separated dispatches there is a whole scan for the priority that
      separates them. */
  lemma ScanBetween(c0: Cursor, vss: seq<seq<Visit>>, i: nat, m1: nat, j: nat, m2: nat, q: Priority) returns (m: nat)
    requires |vss| == |CYCLE| && m1 < |vss| && m2 < |vss| && WellFormed(c0.w) && PassOk(c0, vss)
    requires c0.steps <= PassEnd(c0, vss).steps && i < j < |New(c0, PassEnd(c0, vss))|
    requires Mark(c0, vss, m1) <= i < Mark(c0, vss, m1 + 1) && Mark(c0, vss, m2) <= j < Mark(c0, vss, m2 + 1)
    requires var steps := New(c0, PassEnd(c0, vss));
      && steps[i].Begin? && steps[j].Begin?
      && Separates(q, CYCLE[m1], CYCLE[m2], steps[i].h == steps[j].h)
    ensures m < |vss| && CYCLE[m] == q && i < Mark(c0, vss, m) <= Mark(c0, vss, m + 1) <= j
  {
    hide PassOk, PassEnd, WellFormed, Mark, New;
    if m2 < m1 {
      MarkGrows(c0, vss, m2 + 1, m1);
    }
    if m1 == m2 {
      SameTaskOtherScan(c0, vss, i, j, m1);
    }
    m := SeparatingScan(q, m1, m2, New(c0, PassEnd(c0, vss))[i].h == New(c0, PassEnd(c0, vss))[j].h);
    MarkGrows(c0, vss, m1 + 1, m);
    MarkGrows(c0, vss, m, m + 1);
    MarkGrows(c0, vss, m + 1, m2);
  }

  lemma PassServesScan(c0: Cursor, vss: seq<seq<Visit>>, i: nat, m: nat, j: nat, h: nat, q: Priority)
    requires m < |vss| <= |CYCLE| && CYCLE[m] == q && WellFormed(c0.w) && PassOk(c0, vss)
    requires c0.steps <= PassEnd(c0, vss).steps
    requires i < Mark(c0, vss, m) <= Mark(c0, vss, m + 1) <= j <= |New(c0, PassEnd(c0, vss))|
    requires var steps := New(c0, PassEnd(c0, vss));
      && steps[i].Begin? && steps[i].h != h
      && Ready(Run(c0.w, steps[..i]), h, q, steps[i].now, PassEnd(c0, vss).now)
    ensures DealtIn(New(c0, PassEnd(c0, vss)), i + 1, j, h, q, PassEnd(c0, vss).now)
  {
    hide PassOk, PassEnd, ScanOk, ScanEnd, WellFormed, Ready, Dealt, DealtIn, Run;
    var c := PassEnd(c0, vss);
    var c1, c2 := PassEnd(c0, vss[..m]), PassEnd(c0, vss[..m + 1]);
    ScanInPass(c0, vss, m);
    ReadyUntilScan(c0, vss, i, m, h, q, c.now);
    if DealtIn(New(c0, c), i + 1, Mark(c0, vss, m), h, q, c.now) {
      DealtInWider(New(c0, c), i + 1, Mark(c0, vss, m), j, h, q, c.now);
    } else {
      RewindKeepsReady(c1, h, q, c.now);
      ScanDeals(Rewind(c1), q, vss[m], h, c.now);
      DealtIsIn(c0, Rewind(c1), c2, c, i + 1, j, h, q, c.now);
    }
  }

  lemma DealtInWider(steps: seq<Step>, from: nat, to: nat, later: nat, h: nat, q: Priority, end: nat)
    requires DealtIn(steps, from, to, h, q, end) && to <= later <= |steps|
    ensures DealtIn(steps, from, later, h, q, end)
  {
  }

  lemma RewindKeepsReady(c: Cursor, h: nat, q: Priority, end: nat)
    requires Ready(c.w, h, q, c.now, end)
    ensures Ready(Rewind(c).w, h, q, Rewind(c).now, end)
  {
  }

  /** One complete pass serves the priorities in order. */
  lemma PassOrdered(c0: Cursor, vss: seq<seq<Visit>>)
    requires |vss| == |CYCLE| && WellFormed(c0.w) && PassOk(c0, vss)
    ensures c0.steps <= PassEnd(c0, vss).steps
    ensures Ordered(c0.w, c0.now, New(c0, PassEnd(c0, vss)), PassEnd(c0, vss).now)
  {
    hide PassOk, PassEnd, WellFormed, ServedBefore, ServedBetween;
    PassIsRun(c0, vss);
    var c := PassEnd(c0, vss);
    forall k, p, h, q | 0 <= k < |New(c0, c)|
      ensures ServedBefore(c0.w, c0.now, New(c0, c), c.now, k, p, h, q)
    {
      PassServesBefore(c0, vss, k, p, h, q);
    }
    forall i, j, p1, p2, h, q | 0 <= i < j < |New(c0, c)|
      ensures ServedBetween(c0.w, New(c0, c), c.now, i, p1, j, p2, h, q)
    {
      PassServesBetween(c0, vss, i, p1, j, p2, h, q);
    }
  }
}

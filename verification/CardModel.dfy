/** All interfaces of the card, and the runs of commands, visits and restorations over them. */
module CardModel {
  import opened RateRegisters
  import opened InterfaceModel

  datatype Card = Card(ifs: seq<Iface>, regs: Regs)

  /** Event `e` at interface `i`. Commands may come between any two visits. */
  datatype CardEvent = On(i: nat, e: Event)

  function Step(c: Card, o: CardEvent): (c': Card)
    ensures |c'.ifs| == |c.ifs|
  {
    if o.i >= |c.ifs| then c else
      var (f, r) := Happens(c.ifs[o.i], c.regs, o.e);
      Card(c.ifs[o.i := f], r)
  }

  function Run(c: Card, es: seq<CardEvent>): (c': Card)
    ensures |c'.ifs| == |c.ifs|
  {
    if es == [] then c else Step(Run(c, es[..|es| - 1]), es[|es| - 1])
  }

  lemma RunOneMore(c: Card, es: seq<CardEvent>, o: CardEvent)
    ensures Run(c, es + [o]) == Step(Run(c, es), o)
  {
    assert (es + [o])[..|es|] == es;
  }

  /** The last step of a run, and what it means for interface `k`. */
  lemma RunLast(c: Card, es: seq<CardEvent>, k: nat)
    requires es != [] && k < |c.ifs|
    ensures var c1, o := Run(c, es[..|es| - 1]), es[|es| - 1];
      && Run(c, es) == Step(c1, o)
      && Run(c, es).ifs[k] == if o.i == k then Happens(c1.ifs[k], c1.regs, o.e).0 else c1.ifs[k]
  {
    hide Happens;
  }

  /** Every interface is the one of its index. */
  ghost predicate Placed(c: Card) {
    forall i :: 0 <= i < |c.ifs| ==> c.ifs[i].index == i && Formed(c.ifs[i])
  }

  lemma StepKeepsPlaced(c: Card, o: CardEvent)
    requires Placed(c)
    ensures Placed(Step(c, o))
    ensures o.i < |c.ifs| ==> OnlyOwn(c.regs, Step(c, o).regs, o.i)
  {
    hide Happens, OnlyOwn, Formed;
    if o.i < |c.ifs| {
      HappensToOne(c.ifs[o.i], c.regs, o.e);
    }
  }

  lemma HappensToOne(f: Iface, r: Regs, e: Event)
    requires Formed(f)
    ensures var (f', r') := Happens(f, r, e); f'.index == f.index && Formed(f') && OnlyOwn(r, r', f.index)
  {
    hide Settle, ViewOf;
    if e.Visit? {
      VisitWritesOwn(f, r, e.readBack);
    }
  }

  lemma {:induction false} RunKeepsPlaced(c: Card, es: seq<CardEvent>)
    requires Placed(c)
    ensures Placed(Run(c, es))
  {
    if es == [] {
    } else {
      RunKeepsPlaced(c, es[..|es| - 1]);
      StepKeepsPlaced(Run(c, es[..|es| - 1]), es[|es| - 1]);
    }
  }

  // ----- Safety of each interface --------------------------------------------------------------

  /** In every run whatsoever an interface keeps a counter module exactly with the capability. */
  lemma {:induction false} RunKeepsModule(c: Card, es: seq<CardEvent>, k: nat)
    requires Placed(c) && k < |c.ifs| && ModuleAsCapable(c.ifs[k])
    ensures ModuleAsCapable(Run(c, es).ifs[k])
  {
    if es == [] {
    } else {
      hide ModuleAsCapable, Happens, Run, Step;
      var before, o := es[..|es| - 1], es[|es| - 1];
      RunLast(c, es, k);
      RunKeepsModule(c, before, k);
      RunKeepsPlaced(c, before);
      if o.i == k {
        StepKeepsModule(Run(c, before).ifs[k], Run(c, before).regs, o.e);
      }
    }
  }

  /** From event `from` on, no direct write enables the transmitter of interface `k` while it is settled
      out of service. What happens to other interfaces does not matter. */
  ghost predicate HarmlessFrom(c: Card, es: seq<CardEvent>, k: nat, from: nat)
    requires k < |c.ifs|
  {
    forall j :: from <= j < |es| && es[j].i == k ==> Harmless(Run(c, es[..j]).ifs[k], es[j].e)
  }

  /** Some event switches the transmitter of interface `k` off, or asks for another state, and nothing
      harmful follows. */
  ghost predicate TurnedOff(c: Card, es: seq<CardEvent>, k: nat)
    requires k < |c.ifs|
  {
    exists j :: 0 <= j < |es| && TurnedOffAt(c, es, k, j)
  }

  ghost predicate TurnedOffAt(c: Card, es: seq<CardEvent>, k: nat, j: nat)
    requires k < |c.ifs| && j < |es|
  {
    es[j].i == k && TurnsOff(Run(c, es[..j]).ifs[k], es[j].e) && HarmlessFrom(c, es, k, j + 1)
  }

  lemma HarmlessBefore(c: Card, es: seq<CardEvent>, before: seq<CardEvent>, k: nat, from: nat)
    requires k < |c.ifs| && es != [] && before == es[..|es| - 1] && from < |es|
    ensures HarmlessFrom(c, es, k, from) <==>
      && HarmlessFrom(c, before, k, from)
      && (es[|es| - 1].i == k ==> Harmless(Run(c, before).ifs[k], es[|es| - 1].e))
  {
    hide Run, Harmless;
    if HarmlessFrom(c, es, k, from) {
      forall j | from <= j < |before| && before[j].i == k
        ensures Harmless(Run(c, before[..j]).ifs[k], before[j].e)
      {
        assert es[..j] == before[..j] && es[j] == before[j];
      }
    }
    if HarmlessFrom(c, before, k, from) && (es[|es| - 1].i == k ==> Harmless(Run(c, before).ifs[k], es[|es| - 1].e)) {
      forall j | from <= j < |es| && es[j].i == k
        ensures Harmless(Run(c, es[..j]).ifs[k], es[j].e)
      {
        assert j < |before| ==> es[..j] == before[..j] && es[j] == before[j];
      }
    }
  }

  lemma TurnedOffBefore(c: Card, es: seq<CardEvent>, before: seq<CardEvent>, k: nat)
    requires k < |c.ifs| && es != [] && before == es[..|es| - 1]
    ensures var o, f := es[|es| - 1], Run(c, before).ifs[k];
      TurnedOff(c, es, k) <==>
        (TurnedOff(c, before, k) && (o.i == k ==> Harmless(f, o.e))) || (o.i == k && TurnsOff(f, o.e))
  {
    hide Run, Harmless, TurnsOff, HarmlessFrom;
    var o, n := es[|es| - 1], |before|;
    NothingAfter(c, es, k);
    forall j | 0 <= j < n
      ensures TurnedOffAt(c, es, k, j) <==>
        TurnedOffAt(c, before, k, j) && (o.i == k ==> Harmless(Run(c, before).ifs[k], o.e))
    {
      assert es[..j] == before[..j] && es[j] == before[j];
      HarmlessBefore(c, es, before, k, j + 1);
    }
    if TurnedOff(c, before, k) && (o.i == k ==> Harmless(Run(c, before).ifs[k], o.e)) {
      var j :| 0 <= j < n && TurnedOffAt(c, before, k, j);
      assert TurnedOffAt(c, es, k, j);
    }
    if TurnedOff(c, es, k) {
      var j :| 0 <= j < |es| && TurnedOffAt(c, es, k, j);
      assert j < n ==> TurnedOffAt(c, before, k, j);
    }
    assert TurnedOffAt(c, es, k, n) <==> o.i == k && TurnsOff(Run(c, before).ifs[k], o.e);
  }

  lemma NothingAfter(c: Card, es: seq<CardEvent>, k: nat)
    requires k < |c.ifs|
    ensures HarmlessFrom(c, es, k, |es|)
  {
  }

  /** In every run of commands, direct writes, visits and restorations, in whatever order they come, an
      interface ends safe (if it is settled out of service, its transmitter is to be off and has been
      commanded so) exactly if it started safe and nothing harmful came, or something has switched the
      transmitter off or asked for another state and nothing harmful came since. */
  lemma {:induction false} RunKeepsSafe(c: Card, es: seq<CardEvent>, k: nat)
    requires Placed(c) && k < |c.ifs|
    ensures SafeOut(Run(c, es).ifs[k]) <==>
      (SafeOut(c.ifs[k]) && HarmlessFrom(c, es, k, 0)) || TurnedOff(c, es, k)
  {
    if es == [] {
    } else {
      hide SafeOut, Harmless, TurnsOff, Happens, Run, Step, HarmlessFrom, TurnedOff;
      var before, o := es[..|es| - 1], es[|es| - 1];
      RunLast(c, es, k);
      RunKeepsSafe(c, before, k);
      RunKeepsPlaced(c, before);
      HarmlessBefore(c, es, before, k, 0);
      TurnedOffBefore(c, es, before, k);
      if o.i == k {
        StepKeepsSafe(Run(c, before).ifs[k], Run(c, before).regs, o.e);
      }
    }
  }

  /** Interface `k` is safe at every moment of the run. */
  ghost predicate SafeThroughout(c: Card, es: seq<CardEvent>, k: nat)
    requires k < |c.ifs|
  {
    forall n :: 0 <= n <= |es| ==> SafeOut(Run(c, es[..n]).ifs[k])
  }

  lemma SafeBefore(c: Card, es: seq<CardEvent>, before: seq<CardEvent>, k: nat)
    requires k < |c.ifs| && es != [] && before == es[..|es| - 1]
    ensures SafeThroughout(c, es, k) <==> SafeThroughout(c, before, k) && SafeOut(Run(c, es).ifs[k])
  {
    hide Run, SafeOut;
    assert es[..|es|] == es;
    if SafeThroughout(c, es, k) {
      forall n | 0 <= n <= |before|
        ensures SafeOut(Run(c, before[..n]).ifs[k])
      {
        assert before[..n] == es[..n];
      }
    }
    if SafeThroughout(c, before, k) && SafeOut(Run(c, es).ifs[k]) {
      forall n | 0 <= n <= |es|
        ensures SafeOut(Run(c, es[..n]).ifs[k])
      {
        assert n < |es| ==> before[..n] == es[..n];
      }
    }
  }

  /** It is safe at every moment exactly if it starts safe and nothing harmful comes. */
  lemma {:induction false} RunIsSafeExactly(c: Card, es: seq<CardEvent>, k: nat)
    requires Placed(c) && k < |c.ifs|
    ensures SafeThroughout(c, es, k) <==> SafeOut(c.ifs[k]) && HarmlessFrom(c, es, k, 0)
  {
    if es == [] {
      assert es[..0] == es;
    } else {
      hide SafeOut, Harmless, TurnsOff, Happens, Run, Step, HarmlessFrom;
      var before, o := es[..|es| - 1], es[|es| - 1];
      var c1 := Run(c, before);
      RunIsSafeExactly(c, before, k);
      RunKeepsPlaced(c, before);
      RunLast(c, es, k);
      HarmlessBefore(c, es, before, k, 0);
      SafeBefore(c, es, before, k);
      assert SafeThroughout(c, before, k) ==> SafeOut(Run(c, before[..|before|]).ifs[k]);
      assert before[..|before|] == before;
      if o.i == k {
        StepKeepsSafe(c1.ifs[k], c1.regs, o.e);
        HarmfulIsUnsafe(c1.ifs[k], c1.regs, o.e);
      }
    }
  }

  /** One harmful write is enough, whatever the interface was before. */
  lemma HarmfulIsUnsafe(f: Iface, r: Regs, e: Event)
    ensures !Harmless(f, e) ==> !SafeOut(Happens(f, r, e).0)
  {
  }

  /** For example the write that enables the transmitter of an interface settled out of service. */
  lemma ForcedTxBreaks(f: Iface, r: Regs)
    requires !f.service.change && f.service.current == OOS
    ensures !SafeOut(Happens(f, r, WriteTx(0)).0)
  {
    HarmfulIsUnsafe(f, r, WriteTx(0));
  }

  // ----- Monitoring of each interface ----------------------------------------------------------

  ghost predicate MeantFor(es: seq<CardEvent>, k: nat) {
    forall j :: 0 <= j < |es| && es[j].i == k ==> Meant(es[j].e)
  }

  ghost predicate SetInOrder(c: Card, es: seq<CardEvent>, k: nat)
    requires k < |c.ifs|
  {
    exists j :: 0 <= j < |es| && es[j].i == k && SetsInOrder(Run(c, es[..j]).ifs[k], es[j].e)
  }

  lemma SetInOrderBefore(c: Card, es: seq<CardEvent>, k: nat)
    requires k < |c.ifs| && es != []
    ensures SetInOrder(c, es, k) <==>
      || SetInOrder(c, es[..|es| - 1], k)
      || (es[|es| - 1].i == k && SetsInOrder(Run(c, es[..|es| - 1]).ifs[k], es[|es| - 1].e))
  {
    hide Run, SetsInOrder;
    var before := es[..|es| - 1];
    if SetInOrder(c, before, k) {
      var j :| 0 <= j < |before| && before[j].i == k && SetsInOrder(Run(c, before[..j]).ifs[k], before[j].e);
      assert es[..j] == before[..j] && es[j] == before[j];
    }
    if SetInOrder(c, es, k) {
      var j :| 0 <= j < |es| && es[j].i == k && SetsInOrder(Run(c, es[..j]).ifs[k], es[j].e);
      if j < |before| {
        assert es[..j] == before[..j] && es[j] == before[j];
      }
    }
  }

  /** In every run whose state commands for an interface ask for one of the three states, it ends with
      monitoring and state in order exactly if it started so or something in the run put it in order:
      a state command, a restoration, or a state change due while nothing was monitored. */
  lemma {:induction false} RunKeepsMonitoring(c: Card, es: seq<CardEvent>, k: nat)
    requires Placed(c) && k < |c.ifs| && MeantFor(es, k)
    ensures InOrder(Run(c, es).ifs[k]) <==> InOrder(c.ifs[k]) || SetInOrder(c, es, k)
  {
    if es == [] {
    } else {
      hide InOrder, SetsInOrder, Happens, Meant, Run, Step, SetInOrder;
      var before, o := es[..|es| - 1], es[|es| - 1];
      RunLast(c, es, k);
      var c1 := Run(c, before);
      RunKeepsMonitoring(c, before, k);
      RunKeepsPlaced(c, before);
      SetInOrderBefore(c, es, k);
      if o.i == k {
        StepKeepsMonitoring(c1.ifs[k], c1.regs, o.e);
      }
    }
  }

  // ----- Agreement of each client with the registers -------------------------------------------

  ghost predicate SetInAgreement(c: Card, es: seq<CardEvent>, k: nat)
    requires k < |c.ifs|
  {
    exists j :: 0 <= j < |es| && es[j].i == k && SetsInAgreement(Run(c, es[..j]).ifs[k], es[j].e)
  }

  lemma SetInAgreementBefore(c: Card, es: seq<CardEvent>, k: nat)
    requires k < |c.ifs| && es != []
    ensures SetInAgreement(c, es, k) <==>
      || SetInAgreement(c, es[..|es| - 1], k)
      || (es[|es| - 1].i == k && SetsInAgreement(Run(c, es[..|es| - 1]).ifs[k], es[|es| - 1].e))
  {
    hide Run, SetsInAgreement;
    var before := es[..|es| - 1];
    if SetInAgreement(c, before, k) {
      var j :| 0 <= j < |before| && before[j].i == k && SetsInAgreement(Run(c, before[..j]).ifs[k], before[j].e);
      assert es[..j] == before[..j] && es[j] == before[j];
    }
    if SetInAgreement(c, es, k) {
      var j :| 0 <= j < |es| && es[j].i == k && SetsInAgreement(Run(c, es[..j]).ifs[k], es[j].e);
      if j < |before| {
        assert es[..j] == before[..j] && es[j] == before[j];
      }
    }
  }

  /** In every run, whatever is asked of whichever client in between, a client's record ends in
      agreement with its own fields of the shared registers exactly if it started so or something in
      the run saw to it: its loopback request, a rate request, or a restoration. */
  lemma {:induction false} RunAgrees(c: Card, es: seq<CardEvent>, k: nat)
    requires Placed(c) && k < |c.ifs|
    ensures Agrees(Run(c, es).ifs[k], Run(c, es).regs) <==> Agrees(c.ifs[k], c.regs) || SetInAgreement(c, es, k)
  {
    if es == [] {
    } else {
      hide Agrees, SetsInAgreement, Happens, Run, Step, SetInAgreement;
      var before, o := es[..|es| - 1], es[|es| - 1];
      RunLast(c, es, k);
      var c1 := Run(c, before);
      RunAgrees(c, before, k);
      RunKeepsPlaced(c, before);
      SetInAgreementBefore(c, es, k);
      StepAgrees(c1, o, k);
    }
  }

  lemma StepAgrees(c: Card, o: CardEvent, k: nat)
    requires Placed(c) && k < |c.ifs|
    ensures Agrees(Step(c, o).ifs[k], Step(c, o).regs) <==>
      Agrees(c.ifs[k], c.regs) || (o.i == k && SetsInAgreement(c.ifs[k], o.e))
  {
    hide Agrees, SetsInAgreement, Happens;
    if o.i == k {
      StepKeepsAgreement(c.ifs[k], c.regs, o.e);
    } else if o.i < |c.ifs| {
      StepKeepsPlaced(c, o);
      OthersKeepAgreement(c.ifs[k], c.regs, Step(c, o).regs, o.i);
    }
  }

  // ----- From start-up on ----------------------------------------------------------------------

  /** The card as start-up leaves it: which ports are mapped, and the user's settings. */
  ghost predicate CardStartedUp(c: Card, mapped: seq<bool>, stored: seq<Settings>) {
    && |c.ifs| == |mapped| == |stored| == INTERFACES
    && forall i :: 0 <= i < INTERFACES ==> c.ifs[i] == StartedUp(i, mapped[i], stored[i])
  }

  lemma StartUpIsPlaced(c: Card, mapped: seq<bool>, stored: seq<Settings>)
    requires CardStartedUp(c, mapped, stored)
    ensures Placed(c)
  {
  }

  /** Every interface of every state reachable after start-up has a counter module exactly with the
      capability. */
  lemma ReachableHasModule(c: Card, mapped: seq<bool>, stored: seq<Settings>, es: seq<CardEvent>, k: nat)
    requires CardStartedUp(c, mapped, stored) && k < INTERFACES
    ensures ModuleAsCapable(Run(c, es).ifs[k])
  {
    hide ModuleAsCapable, StartedUp, Run;
    StartUpIsPlaced(c, mapped, stored);
    BootIsSafe(k, mapped[k], stored[k]);
    RunKeepsModule(c, es, k);
  }

  /** And it is safe exactly if nothing harmful has come since start-up, or since something has
      switched its transmitter off or asked for another state. */
  lemma ReachableIsSafe(c: Card, mapped: seq<bool>, stored: seq<Settings>, es: seq<CardEvent>, k: nat)
    requires CardStartedUp(c, mapped, stored) && k < INTERFACES
    ensures SafeOut(Run(c, es).ifs[k]) <==> HarmlessFrom(c, es, k, 0) || TurnedOff(c, es, k)
  {
    hide SafeOut, StartedUp, HarmlessFrom, TurnedOff, Run;
    StartUpIsPlaced(c, mapped, stored);
    BootIsSafe(k, mapped[k], stored[k]);
    RunKeepsSafe(c, es, k);
  }

  /** Every interface of every reachable state is in order exactly if its stored state was one of the
      three or something since start-up has put it in order. */
  lemma ReachableIsMonitored(c: Card, mapped: seq<bool>, stored: seq<Settings>, es: seq<CardEvent>, k: nat)
    requires CardStartedUp(c, mapped, stored) && k < INTERFACES && MeantFor(es, k)
    ensures InOrder(Run(c, es).ifs[k]) <==> IsState(stored[k].service) || SetInOrder(c, es, k)
  {
    hide InOrder, StartedUp, SetInOrder, Run;
    StartUpIsPlaced(c, mapped, stored);
    BootIsSafe(k, mapped[k], stored[k]);
    RunKeepsMonitoring(c, es, k);
  }

  /** Every client of every reachable state agrees with its registers exactly if it is not mapped, or
      its stored rate was requested at start-up, or the registers held it, or something since has seen
      to it. */
  lemma ReachableAgrees(c: Card, mapped: seq<bool>, stored: seq<Settings>, es: seq<CardEvent>, k: nat)
    requires CardStartedUp(c, mapped, stored) && k < CLIENTS
    ensures Agrees(Run(c, es).ifs[k], Run(c, es).regs) <==>
      || !mapped[k] || stored[k].rate !in {15, 11, 14} || Reflects(ViewOf(c.regs, k), stored[k].rate)
      || SetInAgreement(c, es, k)
  {
    hide Agrees, StartedUp, SetInAgreement, Run, ViewOf, Reflects;
    StartUpIsPlaced(c, mapped, stored);
    StartUpAgrees(k, mapped[k], stored[k], c.regs);
    RunAgrees(c, es, k);
  }

  /** A line stays what it was made: OTU2 with its counter module, error correction and OTU alarms. */
  lemma {:induction false} ReachableLine(c: Card, mapped: seq<bool>, stored: seq<Settings>, es: seq<CardEvent>, k: nat)
    requires CardStartedUp(c, mapped, stored) && 16 <= k < 18
    ensures var f := Run(c, es).ifs[k];
      && f.index == k && !f.multiRate && f.monitorRate == 16 && f.monitorProt == 2
      && f.pfc && f.pfcCapable && f.fecCapable
  {
    StartUpIsPlaced(c, mapped, stored);
    if es == [] {
      assert c.ifs[k] == StartedUp(k, mapped[k], stored[k]);
    } else {
      hide Happens, StartedUp, Step, Run;
      var before, o := es[..|es| - 1], es[|es| - 1];
      RunLast(c, es, k);
      ReachableLine(c, mapped, stored, before, k);
      RunKeepsPlaced(c, before);
      if o.i == k {
        StepKeepsFixed(Run(c, before).ifs[k], Run(c, before).regs, o.e);
      }
    }
  }

  // ----- The pass ------------------------------------------------------------------------------

  /** The visits of a pass: every interface once, in index order. */
  function Visits(readBacks: seq<nat>): seq<CardEvent> {
    seq(|readBacks|, i requires 0 <= i < |readBacks| => On(i, Visit(readBacks[i])))
  }

  /** The restoration of the first `n` interfaces. */
  function Restores(n: nat): seq<CardEvent> {
    seq(n, i requires 0 <= i < n => On(i, Restore))
  }

  lemma VisitsOfOneMore(readBacks: seq<nat>, x: nat)
    ensures Visits(readBacks + [x]) == Visits(readBacks) + [On(|readBacks|, Visit(x))]
  {
  }

  /** What a visit leaves of an interface that was `f`. */
  ghost predicate Settled(f: Iface, f': Iface) {
    && !f'.service.change && !f'.rate.change
    && (f.rate.change && (!f.multiRate || f.mapped) ==> f'.rate.current == f'.rate.next)
    && (ModuleAsCapable(f) ==> ModuleAsCapable(f'))
    && ((f'.service.current == OOS ==> f'.tx.next == 1 && f'.txPin == 1) <==>
         SafeOut(f) || (f.tx.next == 1 && f.tx.change))
  }

  lemma VisitSettles(f: Iface, r: Regs, readBack: nat)
    requires Formed(f)
    ensures Settled(f, Settle(f, r, readBack).0)
  {
    hide Settle;
    VisitTurnsOff(f, r, readBack);
    VisitTakesEffect(f, r, readBack);
    RateSettles(f, r, readBack);
  }

  /** At the end of a pass every interface is settled: no state or rate request is open, requests for a
      rate are in force, the counter module goes with the capability, and out of service means
      transmitter off, exactly if that was so before or the transmitter was to be switched off. */
  lemma {:induction false} PassSettles(c: Card, readBacks: seq<nat>)
    requires Placed(c) && |readBacks| <= |c.ifs|
    ensures var c' := Run(c, Visits(readBacks));
      && (forall i :: 0 <= i < |readBacks| ==> Settled(c.ifs[i], c'.ifs[i]))
      && (forall i :: |readBacks| <= i < |c.ifs| ==> c'.ifs[i] == c.ifs[i])
  {
    hide Settle, Settled, Formed;
    if readBacks == [] {
      assert Visits(readBacks) == [];
    } else {
      var n := |readBacks| - 1;
      var before, x := readBacks[..n], readBacks[n];
      assert readBacks == before + [x];
      PassSettles(c, before);
      VisitsOfOneMore(before, x);
      var c1 := Run(c, Visits(before));
      RunOneMore(c, Visits(before), On(n, Visit(x)));
      VisitSettles(c1.ifs[n], c1.regs, x);
    }
  }
}

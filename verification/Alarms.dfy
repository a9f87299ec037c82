/** The two alarms of the card: the severity of every measured value, their aggregation over the
    interfaces, and the round of the periodic task that evaluates them and shows them on the LEDs.
 */
module Alarms {
  import opened RateRegisters
  import opened InterfaceModel
  import opened CardModel
  import opened InterfaceControl

  const SONET := 3

  const EPSILON := 0.00001

  datatype Severity = Normal | Warning | Critical

  predicate Below(a: real, b: real) {
    b - a > EPSILON
  }

  predicate Above(a: real, b: real) {
    a - b > EPSILON
  }

  datatype Diagnostic = Diagnostic(value: real, criticalMin: real, warningMin: real, warningMax: real,
                                   criticalMax: real,
                                   current: Severity, previous: Severity)

  predicate Outside(value: real, low: real, high: real) {
    Below(value, low) || Above(value, high)
  }

  function Judged(d: Diagnostic): Severity {
    if Outside(d.value, d.criticalMin, d.criticalMax) then Critical
    else if Outside(d.value, d.warningMin, d.warningMax) then Warning
    else Normal
  }

  function Updated(d: Diagnostic): Diagnostic {
    d.(previous := d.current, current := Judged(d))
  }

  /** What is measured at an interface; the words are the alarms of its protocols. */
  datatype Measured = Measured(hasTemperature: bool, hasPower: bool, temperature: Diagnostic, pin: Diagnostic,
                               pout: Diagnostic, fecLoad: Diagnostic, odux: nat, eth: nat, stmx: nat, otux: nat)

  function UpdatedAll(m: Measured, fecCapable: bool): Measured {
    m.(temperature := Updated(m.temperature), pin := Updated(m.pin), pout := Updated(m.pout),
       fecLoad := if fecCapable then Updated(m.fecLoad) else m.fecLoad)
  }

  /** A value the interface has and that is at severity `s`. */
  predicate Shows(f: Iface, m: Measured, s: Severity) {
    || (m.hasTemperature && m.temperature.current == s)
    || (m.hasPower && (m.pin.current == s || m.pout.current == s))
    || (f.fecCapable && m.fecLoad.current == s)
  }

  /** An alarm word of the protocol that the interface carries. */
  predicate ProtocolAlarm(f: Iface, m: Measured) {
    || (!IsClient(f) && m.odux != 0)
    || (f.monitorProt == ETHERNET && m.eth != 0)
    || ((f.monitorProt == SONET || f.monitorProt == SDH) && m.stmx != 0)
    || (f.monitorProt == OTU && m.otux != 0)
  }

  predicate Minor(f: Iface, m: Measured) {
    f.monitor && Shows(f, m, Warning)
  }

  predicate Major(f: Iface, m: Measured) {
    f.monitor && (Shows(f, m, Critical) || ProtocolAlarm(f, m))
  }

  /** The first alarm: a warning on the card or at some monitored interface. */
  ghost predicate Alarm1(card: Diagnostic, fs: seq<Iface>, ms: seq<Measured>)
    requires |fs| == |ms|
  {
    card.current == Warning || exists i :: 0 <= i < |fs| && Minor(fs[i], ms[i])
  }

  /** The second alarm: something critical, or a protocol alarm. */
  ghost predicate Alarm2(card: Diagnostic, fs: seq<Iface>, ms: seq<Measured>)
    requires |fs| == |ms|
  {
    card.current == Critical || exists i :: 0 <= i < |fs| && Major(fs[i], ms[i])
  }

  // ----- Severities ----------------------------------------------------------------------------

  /** The critical limits win over the warning limits, and a value within both is normal. A value at
      most EPSILON beyond a limit counts as within. */
  lemma SeverityIsExact(d: Diagnostic)
    ensures Judged(d) == Critical <==> d.value < d.criticalMin - EPSILON || d.value > d.criticalMax + EPSILON
    ensures Judged(d) == Normal <==>
      && d.criticalMin - EPSILON <= d.value <= d.criticalMax + EPSILON
      && d.warningMin - EPSILON <= d.value <= d.warningMax + EPSILON
  {
  }

  /** A value beyond a critical limit by more than the tolerance. */
  predicate BeyondCritical(d: Diagnostic) {
    d.value < d.criticalMin - 0.00001 || d.value > d.criticalMax + 0.00001
  }

  predicate BeyondWarning(d: Diagnostic) {
    d.value < d.warningMin - 0.00001 || d.value > d.warningMax + 0.00001
  }

  /** A value that the interface has is beyond a critical limit, or its protocol has an alarm. */
  predicate CriticalNow(f: Iface, m: Measured) {
    || (m.hasTemperature && BeyondCritical(m.temperature))
    || (m.hasPower && (BeyondCritical(m.pin) || BeyondCritical(m.pout)))
    || (f.fecCapable && BeyondCritical(m.fecLoad))
    || (f.index >= 16 && m.odux != 0)
    || (f.monitorProt == 1 && m.eth != 0)
    || ((f.monitorProt == 3 || f.monitorProt == 4) && m.stmx != 0)
    || (f.monitorProt == 2 && m.otux != 0)
  }

  /** A value that the interface has is beyond a warning limit, and not beyond a critical one. */
  predicate WarningNow(f: Iface, m: Measured) {
    || (m.hasTemperature && BeyondWarning(m.temperature) && !BeyondCritical(m.temperature))
    || (m.hasPower && BeyondWarning(m.pin) && !BeyondCritical(m.pin))
    || (m.hasPower && BeyondWarning(m.pout) && !BeyondCritical(m.pout))
    || (f.fecCapable && BeyondWarning(m.fecLoad) && !BeyondCritical(m.fecLoad))
  }

  /** Every value the interface has is at the severity that its limits give it. */
  predicate UpToDate(f: Iface, m: Measured) {
    && m.temperature.current == Judged(m.temperature)
    && m.pin.current == Judged(m.pin) && m.pout.current == Judged(m.pout)
    && (f.fecCapable ==> m.fecLoad.current == Judged(m.fecLoad))
  }

  /** With the severities up to date the alarms are those of the values: the second one is on exactly if
      the card or a monitored interface has a value beyond a critical limit or a protocol alarm, the
      first one exactly if one of them has a value beyond a warning limit only. */
  lemma AlarmsAreExact(card: Diagnostic, fs: seq<Iface>, ms: seq<Measured>)
    requires |fs| == |ms| && card.current == Judged(card)
    requires forall i :: 0 <= i < |fs| ==> UpToDate(fs[i], ms[i])
    ensures Alarm2(card, fs, ms) <==>
      BeyondCritical(card) || exists i :: 0 <= i < |fs| && fs[i].monitor && CriticalNow(fs[i], ms[i])
    ensures Alarm1(card, fs, ms) <==>
      || (BeyondWarning(card) && !BeyondCritical(card))
      || exists i :: 0 <= i < |fs| && fs[i].monitor && WarningNow(fs[i], ms[i])
  {
    hide Minor, Major, CriticalNow, WarningNow, UpToDate, Judged, BeyondCritical, BeyondWarning;
    SeverityIs(card);
    forall i | 0 <= i < |fs|
      ensures Minor(fs[i], ms[i]) <==> fs[i].monitor && WarningNow(fs[i], ms[i])
      ensures Major(fs[i], ms[i]) <==> fs[i].monitor && CriticalNow(fs[i], ms[i])
    {
      InterfaceAlarms(fs[i], ms[i]);
    }
    if Alarm2(card, fs, ms) && card.current != Critical {
      var i :| 0 <= i < |fs| && Major(fs[i], ms[i]);
      assert fs[i].monitor && CriticalNow(fs[i], ms[i]);
    }
    if Alarm1(card, fs, ms) && card.current != Warning {
      var i :| 0 <= i < |fs| && Minor(fs[i], ms[i]);
      assert fs[i].monitor && WarningNow(fs[i], ms[i]);
    }
  }

  lemma SeverityIs(d: Diagnostic)
    ensures Judged(d) == Critical <==> BeyondCritical(d)
    ensures Judged(d) == Warning <==> BeyondWarning(d) && !BeyondCritical(d)
  {
    SeverityIsExact(d);
  }

  lemma InterfaceAlarms(f: Iface, m: Measured)
    requires UpToDate(f, m)
    ensures Minor(f, m) <==> f.monitor && WarningNow(f, m)
    ensures Major(f, m) <==> f.monitor && CriticalNow(f, m)
  {
    hide Judged, BeyondCritical, BeyondWarning;
    SeverityIs(m.temperature);
    SeverityIs(m.pin);
    SeverityIs(m.pout);
    SeverityIs(m.fecLoad);
  }

  /** With no change to the value or the limits, updating again only makes the previous severity the
      current one. */
  function UpdatedTimes(d: Diagnostic, n: nat): Diagnostic {
    if n == 0 then d else Updated(UpdatedTimes(d, n - 1))
  }

  lemma {:induction false} UpdatedMoreThanOnce(d: Diagnostic, n: nat)
    requires n >= 2
    ensures UpdatedTimes(d, n) == d.(current := Judged(d), previous := Judged(d))
  {
    if n > 2 {
      UpdatedMoreThanOnce(d, n - 1);
    } else {
      assert UpdatedTimes(d, 1) == Updated(UpdatedTimes(d, 0));
    }
  }

  // ----- Agreement with the service state ------------------------------------------------------

  /** An interface with no state change due that is not in service adds to neither alarm, as long as
      it is monitored only in service. */
  lemma OnlyInServiceCounts(f: Iface, m: Measured)
    requires OnlyInService(f) && !f.service.change && f.service.current != IS
    ensures !Minor(f, m) && !Major(f, m)
  {
  }

  /** In every run whose state commands for an interface ask for one of the three states, the interface
      adds to the alarms only in service or with a state change due, if it started in order or
      something in the run put it in order. */
  lemma RunsCountOnlyInService(c: Card, es: seq<CardEvent>, k: nat, m: Measured)
    requires Placed(c) && k < |c.ifs| && MeantFor(es, k)
    requires InOrder(c.ifs[k]) || SetInOrder(c, es, k)
    ensures var f := Run(c, es).ifs[k];
      !f.service.change && f.service.current != IS ==> !Minor(f, m) && !Major(f, m)
  {
    RunKeepsMonitoring(c, es, k);
    var f := Run(c, es).ifs[k];
    if !f.service.change && f.service.current != IS {
      OnlyInServiceCounts(f, m);
    }
  }

  /** From start-up on, that is every interface whose stored state was one of the three, and any other
      once it has been put in order. */
  lemma ReachableCountsOnlyInService(c: Card, mapped: seq<bool>, stored: seq<Settings>, es: seq<CardEvent>, k: nat,
                                     m: Measured)
    requires CardStartedUp(c, mapped, stored) && k < INTERFACES && MeantFor(es, k)
    requires IsState(stored[k].service) || SetInOrder(c, es, k)
    ensures var f := Run(c, es).ifs[k];
      !f.service.change && f.service.current != IS ==> !Minor(f, m) && !Major(f, m)
  {
    hide StartedUp, SetInOrder, Run, Minor, Major;
    ReachableIsMonitored(c, mapped, stored, es, k);
    var f := Run(c, es).ifs[k];
    if !f.service.change && f.service.current != IS {
      OnlyInServiceCounts(f, m);
    }
  }

  // ----- The LEDs ------------------------------------------------------------------------------

  datatype Option<T> = None | Some(value: T)

  /** An alarm of the card, as it was evaluated last and the time before. */
  datatype Status = Status(current: bool, previous: bool, change: bool)

  function Evaluated(s: Status, now: bool): Status {
    Status(now, s.current, now != s.current)
  }

  /** The two alarms and the pair that was last written to the LEDs. */
  datatype Panel = Panel(alarm1: Status, alarm2: Status, shown: Option<(bool, bool)>)

  function Pair(p: Panel): (bool, bool) {
    (p.alarm2.current, p.alarm1.current)
  }

  /** An evaluation, with whether a write to the LEDs gets through, or a reload of the defaults. */
  datatype PanelEvent = Evaluation(one: bool, two: bool, ok: bool) | Reload

  function PanelStep(p: Panel, e: PanelEvent): Panel {
    match e
    case Evaluation(one, two, ok) =>
      var p1 := p.(alarm1 := Evaluated(p.alarm1, one), alarm2 := Evaluated(p.alarm2, two));
      if (p1.alarm1.change || p1.alarm2.change) && ok then p1.(shown := Some(Pair(p1))) else p1
    case Reload =>
      p.(alarm1 := p.alarm1.(current := true, change := true), alarm2 := p.alarm2.(current := true, change := true))
  }

  function PanelRun(p: Panel, es: seq<PanelEvent>): Panel {
    if es == [] then p else PanelStep(PanelRun(p, es[..|es| - 1]), es[|es| - 1])
  }

  /** Once something has been written, the LEDs show the alarms. */
  predicate InSync(p: Panel) {
    p.shown.Some? ==> p.shown.value == Pair(p)
  }

  /** The LEDs are written exactly when the pair of alarms changes. */
  lemma WrittenOnChange(p: Panel, one: bool, two: bool)
    ensures PanelStep(p, Evaluation(one, two, true)).shown ==
      if (two, one) != Pair(p) then Some((two, one)) else p.shown
    ensures PanelStep(p, Evaluation(one, two, false)).shown == p.shown
  {
  }

  /** What puts the LEDs out of step: a change whose write fails, or a reload that changes the pair. */
  predicate Disturbs(p: Panel, e: PanelEvent) {
    p.shown.Some? && match e
      case Evaluation(one, two, ok) => !ok && (two, one) != Pair(p)
      case Reload => Pair(p) != (true, true)
  }

  /** At some moment of the run something puts the LEDs out of step. */
  ghost predicate Disturbed(p: Panel, es: seq<PanelEvent>) {
    exists k :: 0 <= k < |es| && Disturbs(PanelRun(p, es[..k]), es[k])
  }

  lemma StepKeepsSync(p: Panel, e: PanelEvent)
    requires InSync(p)
    ensures InSync(PanelStep(p, e)) <==> !Disturbs(p, e)
  {
  }

  lemma DisturbedBefore(p: Panel, es: seq<PanelEvent>)
    requires es != []
    ensures Disturbed(p, es) <==>
      Disturbed(p, es[..|es| - 1]) || Disturbs(PanelRun(p, es[..|es| - 1]), es[|es| - 1])
  {
    hide PanelRun, Disturbs;
    var before := es[..|es| - 1];
    if Disturbed(p, before) {
      var k :| 0 <= k < |before| && Disturbs(PanelRun(p, before[..k]), before[k]);
      assert es[..k] == before[..k] && es[k] == before[k];
    }
    if Disturbed(p, es) {
      var k :| 0 <= k < |es| && Disturbs(PanelRun(p, es[..k]), es[k]);
      if k < |before| {
        assert es[..k] == before[..k] && es[k] == before[k];
      }
    }
  }

  /** The LEDs show the alarms at every moment of a run, from the first write on, exactly if nothing in
      it puts them out of step. */
  lemma {:induction false} RunKeepsSync(p: Panel, es: seq<PanelEvent>)
    requires InSync(p)
    ensures (forall n :: 0 <= n <= |es| ==> InSync(PanelRun(p, es[..n]))) <==> !Disturbed(p, es)
  {
    if es == [] {
      assert es[..0] == es;
    } else {
      hide InSync, Disturbs, PanelStep, Disturbed;
      var before, e := es[..|es| - 1], es[|es| - 1];
      RunKeepsSync(p, before);
      DisturbedBefore(p, es);
      assert forall n :: 0 <= n <= |before| ==> before[..n] == es[..n];
      assert es[..|es|] == es && es[..|es| - 1] == before[..|before|] == before;
      if InSync(PanelRun(p, before)) {
        StepKeepsSync(PanelRun(p, before), e);
      }
    }
  }

  /** Without reloads and failed writes nothing does. */
  lemma UndisturbedRun(p: Panel, es: seq<PanelEvent>)
    requires InSync(p) && forall k :: 0 <= k < |es| ==> es[k].Evaluation? && es[k].ok
    ensures InSync(PanelRun(p, es))
  {
    RunKeepsSync(p, es);
    assert es[..|es|] == es;
  }

  /** A reload after the LEDs have shown that all is well is such a disturbance. */
  lemma ReloadExample()
    ensures var off := Status(false, false, false);
      !InSync(PanelRun(Panel(off, off, Some((false, false))), [Reload]))
  {
    var off := Status(false, false, false);
    assert [Reload][..0] == [];
    StepKeepsSync(Panel(off, off, Some((false, false))), Reload);
  }

  /** A write that failed is not made up for: as long as the alarms stay as they are, so do the LEDs. */
  lemma {:induction false} StaysStale(p: Panel, es: seq<PanelEvent>)
    requires p.shown.Some? && !InSync(p)
    requires forall k :: 0 <= k < |es| ==> es[k].Evaluation? && (es[k].two, es[k].one) == Pair(p)
    ensures !InSync(PanelRun(p, es)) && PanelRun(p, es).shown == p.shown && Pair(PanelRun(p, es)) == Pair(p)
  {
    if es == [] {
    } else {
      StaysStale(p, es[..|es| - 1]);
    }
  }

  // ----- The card ------------------------------------------------------------------------------

  /** The defaults of the profile: both alarms on, and nothing shown yet. */
  const START := Panel(Status(true, false, true), Status(true, false, true), None)

  class AlarmCard {
    const card: InterfaceCard
    const measured: array<Measured>
    var temperature: Diagnostic
    var alarm1: Status
    var alarm2: Status
    var shown: Option<(bool, bool)>
    var selectedIf: nat
    ghost var visited: seq<nat>
    ghost var events: seq<PanelEvent>

    constructor (card: InterfaceCard, measured: array<Measured>, temperature: Diagnostic)
      requires card.Distinct() && measured.Length == INTERFACES
      ensures Valid() && this.card == card && this.measured == measured && events == []
    {
      this.card, this.measured, this.temperature := card, measured, temperature;
      alarm1, alarm2, shown := START.alarm1, START.alarm2, START.shown;
      selectedIf, visited, events := 0, [], [];
    }

    /** The round has come to `selectedIf`, and the alarms are where the events have brought them. */
    ghost predicate Valid()
      reads this
    {
      Ready() && selectedIf < INTERFACES && visited == seq(selectedIf, i => i) && Value() == PanelRun(START, events)
    }

    ghost predicate Ready() {
      card.Distinct() && measured.Length == INTERFACES
    }

    ghost function Value(): Panel
      reads this
    {
      Panel(alarm1, alarm2, shown)
    }

    ghost function Records(): seq<Iface>
      reads card.interfaces
    {
      Ifaces(card.interfaces)
    }

    /** Judges every measured value. The card's own temperature is judged once for each interface. */
    method UpdateAlarms()
      requires Ready()
      modifies this`temperature, measured
      ensures forall i :: 0 <= i < INTERFACES ==>
        var m := old(measured[i]);
        measured[i] == m.(
          temperature := m.temperature.(current := Judged(m.temperature), previous := m.temperature.current),
          pin := m.pin.(current := Judged(m.pin), previous := m.pin.current),
          pout := m.pout.(current := Judged(m.pout), previous := m.pout.current),
          fecLoad := if card.interfaces[i].fecCapable
            then m.fecLoad.(current := Judged(m.fecLoad), previous := m.fecLoad.current) else m.fecLoad)
      ensures temperature ==
        old(temperature).(current := Judged(old(temperature)), previous := Judged(old(temperature)))
      ensures temperature.current == Judged(temperature)
      ensures forall i :: 0 <= i < INTERFACES ==> UpToDate(Records()[i], measured[i])
      ensures forall i :: 0 <= i < INTERFACES ==>
        measured[i] == UpdatedAll(old(measured[i]), card.interfaces[i].fecCapable)
    {
      ghost var d := temperature;
      for i := 0 to INTERFACES
        invariant forall j :: 0 <= j < i ==> measured[j] == UpdatedAll(old(measured[j]), card.interfaces[j].fecCapable)
        invariant forall j :: i <= j < INTERFACES ==> measured[j] == old(measured[j])
        invariant temperature == UpdatedTimes(d, i)
      {
        var m := measured[i];
        m := m.(temperature := Updated(m.temperature));
        m := m.(pin := Updated(m.pin));
        m := m.(pout := Updated(m.pout));
        if card.interfaces[i].fecCapable {
          m := m.(fecLoad := Updated(m.fecLoad));
        }
        measured[i] := m;
        temperature := Updated(temperature);
      }
      UpdatedMoreThanOnce(d, INTERFACES);
    }

    /** Evaluates the first alarm, leaving the scan at the first interface that raises it. */
    method UpdateCardAlarm1()
      requires Ready()
      modifies this`alarm1
      ensures alarm1 == Evaluated(old(alarm1), Alarm1(temperature, Records(), measured[..]))
      ensures alarm1.previous == old(alarm1.current) && alarm1.change == (alarm1.current != old(alarm1.current))
    {
      var alarm := false;
      if temperature.current == Warning {
        alarm := true;
      } else {
        for i := 0 to INTERFACES
          invariant !alarm
          invariant forall j :: 0 <= j < i ==> !Minor(Records()[j], measured[..][j])
        {
          var f, m := card.interfaces[i], measured[i];
          assert f.Value() == Records()[i] && m == measured[..][i];
          if f.monitor {
            if m.hasTemperature {
              if m.temperature.current == Warning {
                alarm := true;
                break;
              }
            }
            if m.hasPower {
              if m.pin.current == Warning {
                alarm := true;
                break;
              }
              if m.pout.current == Warning {
                alarm := true;
                break;
              }
            }
            if f.fecCapable {
              if m.fecLoad.current == Warning {
                alarm := true;
                break;
              }
            }
          }
        }
      }
      alarm1 := Status(alarm, alarm1.current, alarm != alarm1.current);
    }

    /** Evaluates the second alarm. */
    method UpdateCardAlarm2()
      requires Ready()
      modifies this`alarm2
      ensures alarm2 == Evaluated(old(alarm2), Alarm2(temperature, Records(), measured[..]))
      ensures alarm2.previous == old(alarm2.current) && alarm2.change == (alarm2.current != old(alarm2.current))
    {
      var alarm := false;
      if temperature.current == Critical {
        alarm := true;
      } else {
        for i := 0 to INTERFACES
          invariant !alarm
          invariant forall j :: 0 <= j < i ==> !Major(Records()[j], measured[..][j])
        {
          var f, m := card.interfaces[i], measured[i];
          assert f.Value() == Records()[i] && m == measured[..][i];
          if f.monitor {
            if m.hasTemperature {
              if m.temperature.current == Critical {
                alarm := true;
                break;
              }
            }
            if m.hasPower {
              if m.pin.current == Critical {
                alarm := true;
                break;
              }
              if m.pout.current == Critical {
                alarm := true;
                break;
              }
            }
            if f.fecCapable {
              if m.fecLoad.current == Critical {
                alarm := true;
                break;
              }
            }
            if f.index >= CLIENTS {
              if m.odux != 0 {
                alarm := true;
                break;
              }
            }
            if f.monitorProt == ETHERNET {
              if m.eth != 0 {
                alarm := true;
                break;
              }
            }
            if f.monitorProt == SONET || f.monitorProt == SDH {
              if m.stmx != 0 {
                alarm := true;
                break;
              }
            }
            if f.monitorProt == OTU {
              if m.otux != 0 {
                alarm := true;
                break;
              }
            }
          }
        }
      }
      alarm2 := Status(alarm, alarm2.current, alarm != alarm2.current);
    }

    /** Judges the values, evaluates both alarms, and shows them if the pair has changed. */
    method EvaluateAlarms(ledOk: bool)
      requires Ready()
      modifies this`temperature, this`alarm1, this`alarm2, this`shown, measured
      ensures Value() == PanelStep(old(Value()), Evaluation(Alarm1(temperature, Records(), measured[..]),
                                                            Alarm2(temperature, Records(), measured[..]), ledOk))
      ensures forall i :: 0 <= i < INTERFACES ==>
        var m := old(measured[i]);
        measured[i] == m.(
          temperature := m.temperature.(current := Judged(m.temperature), previous := m.temperature.current),
          pin := m.pin.(current := Judged(m.pin), previous := m.pin.current),
          pout := m.pout.(current := Judged(m.pout), previous := m.pout.current),
          fecLoad := if card.interfaces[i].fecCapable
            then m.fecLoad.(current := Judged(m.fecLoad), previous := m.fecLoad.current) else m.fecLoad)
      ensures temperature ==
        old(temperature).(current := Judged(old(temperature)), previous := Judged(old(temperature)))
      ensures alarm2.current <==>
        || BeyondCritical(temperature)
        || exists i :: 0 <= i < INTERFACES && Records()[i].monitor && CriticalNow(Records()[i], measured[i])
      ensures alarm1.current <==>
        || (BeyondWarning(temperature) && !BeyondCritical(temperature))
        || exists i :: 0 <= i < INTERFACES && Records()[i].monitor && WarningNow(Records()[i], measured[i])
      ensures forall i :: 0 <= i < INTERFACES ==>
        measured[i] == UpdatedAll(old(measured[i]), card.interfaces[i].fecCapable)
    {
      hide Judged, UpToDate, Alarm1, Alarm2, CriticalNow, WarningNow, BeyondCritical, BeyondWarning, UpdatedAll;
      UpdateAlarms();
      AlarmsAreExact(temperature, Records(), measured[..]);
      UpdateCardAlarm1();
      UpdateCardAlarm2();
      if alarm1.change || alarm2.change {
        if ledOk {
          shown := Some((alarm2.current, alarm1.current));
        }
      }
    }

    /** Adds the event that has just happened to the trace. */
    ghost method Record(p: Panel, e: PanelEvent)
      requires p == PanelRun(START, events) && Value() == PanelStep(p, e)
      modifies this`events
      ensures events == old(events) + [e] && Value() == PanelRun(START, events)
    {
      events := events + [e];
      assert events[..|events| - 1] == old(events);
    }

    /** One call of the periodic task: new values for the selected interface, then the next one. At the
        end of a round, in which every interface has had its turn once and in order, the alarms are
        evaluated. */
    method Task55(ledOk: bool) returns (ghost round: seq<nat>, evaluated: bool)
      requires Valid()
      modifies this, measured
      ensures Valid()
      ensures evaluated == (old(selectedIf) == 17)
      ensures selectedIf == if evaluated then 0 else old(selectedIf) + 1
      ensures !evaluated ==> Value() == old(Value()) && events == old(events)
      ensures !evaluated ==> visited == old(visited) + [old(selectedIf)]
      ensures evaluated ==> round == seq(18, i => i) && visited == []
      ensures evaluated ==> events == old(events) + [Evaluation(Alarm1(temperature, Records(), measured[..]),
                                                                Alarm2(temperature, Records(), measured[..]), ledOk)]
      ensures evaluated ==> (alarm2.current <==>
        || BeyondCritical(temperature)
        || exists i :: 0 <= i < INTERFACES && Records()[i].monitor && CriticalNow(Records()[i], measured[i]))
      ensures evaluated ==> (alarm1.current <==>
        || (BeyondWarning(temperature) && !BeyondCritical(temperature))
        || exists i :: 0 <= i < INTERFACES && Records()[i].monitor && WarningNow(Records()[i], measured[i]))
      ensures forall i :: 0 <= i < INTERFACES && i != old(selectedIf) ==>
        measured[i] ==
          if evaluated then UpdatedAll(old(measured[i]), card.interfaces[i].fecCapable) else old(measured[i])
    {
      hide Alarm1, Alarm2, PanelRun, UpdatedAll, PanelStep, Judged, CriticalNow, WarningNow;
      hide BeyondCritical, BeyondWarning;
      var now: Measured := *;
      measured[selectedIf] := now;
      visited := visited + [selectedIf];
      selectedIf := selectedIf + 1;
      round, evaluated := [], false;
      if selectedIf == INTERFACES {
        ghost var p := Value();
        selectedIf := 0;
        round, visited := visited, [];
        EvaluateAlarms(ledOk);
        evaluated := true;
        Record(p, Evaluation(Alarm1(temperature, Records(), measured[..]),
                             Alarm2(temperature, Records(), measured[..]), ledOk));
      }
    }

    /** The default values of the profile switch both alarms on. Nothing is written to the LEDs. */
    method ReloadDefaults()
      requires Valid()
      modifies this`alarm1, this`alarm2, this`events
      ensures Valid() && events == old(events) + [Reload]
    {
      ghost var p := Value();
      alarm1 := alarm1.(current := true, change := true);
      alarm2 := alarm2.(current := true, change := true);
      Record(p, Reload);
    }

    /** However the tasks and the card have been called with state commands for the three states: an
        interface whose stored state was one of the three, or that has been put in order since, adds to
        neither alarm while it is not in service and no state change is due. */
    lemma CountsOnlyInService(k: nat)
      requires Valid() && card.Valid() && k < INTERFACES && MeantFor(card.events, k)
      requires IsState(card.stored[k].service) || SetInOrder(card.start, card.events, k)
      ensures var f, m := Records()[k], measured[k];
        !f.service.change && f.service.current != IS ==> !Minor(f, m) && !Major(f, m)
    {
      hide CardStartedUp, SetInOrder, Run, Minor, Major;
      ReachableCountsOnlyInService(card.start, card.Mapped(), card.stored, card.events, k, measured[k]);
    }

    /** In particular if no defaults have been reloaded and every write has got through. */
    lemma ShowsAlarmsUndisturbed()
      requires Valid() && forall k :: 0 <= k < |events| ==> events[k].Evaluation? && events[k].ok
      ensures InSync(Value())
    {
      UndisturbedRun(START, events);
    }

    /** However the tasks have been called: as long as nothing has put them out of step, the LEDs show
        the alarms from the first write on. */
    lemma ShowsAlarms()
      requires Valid() && !Disturbed(START, events)
      ensures InSync(Value())
    {
      RunKeepsSync(START, events);
      assert events[..|events|] == events;
    }
  }
}

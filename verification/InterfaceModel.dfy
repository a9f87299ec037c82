/** One interface of the card: what a user command asks of it and what the periodic pass makes of the
    request. Requests are triples: the wanted value, the value in force, and whether a change is due.
 */
module InterfaceModel {
  import opened RateRegisters

  const OOS := 0
  const MT := 1
  const IS := 2

  const NORMAL := 0
  const TO_CLIENT := 1
  const TO_LINE := 2

  const INTERFACES := 18

  datatype Control = Control(next: nat, current: nat, change: bool)

  /** `txPin` is what was last written to the pin that switches the transmitter off, `pfc` whether the
      interface has a performance counter module. */
  datatype Iface = Iface(index: nat, multiRate: bool, mapped: bool, pfcCapable: bool, fecCapable: bool, pfc: bool,
                         monitor: bool, service: Control, loopback: Control, rate: Control,
                         monitorRate: nat, monitorProt: nat, tx: Control, txPin: nat, resetCounters: bool)

  predicate IsClient(f: Iface) {
    f.index < CLIENTS
  }

  /** The clients, and only they, have more than one rate. */
  predicate Formed(f: Iface) {
    f.index < INTERFACES && f.multiRate == IsClient(f)
  }

  // ----- Rates ---------------------------------------------------------------------------------

  datatype Answer = Success | InvalidParams | Fail

  function SetRate(f: Iface, r: Regs): (Answer, Iface, Regs) {
    if !f.multiRate then (InvalidParams, f, r)
    else if !f.mapped then (Fail, f, r)
    else if IsClient(f) then (Success, f.(rate := f.rate.(current := f.rate.next)), Written(r, f.index, f.rate.next))
    else (Success, f, r)
  }

  function SelectRead(f: Iface, r: Regs): nat {
    if IsClient(f) then ViewOf(r, f.index).select else 0
  }

  function ReadRate(f: Iface, r: Regs): (Answer, Iface) {
    if !f.mapped || !f.multiRate then (InvalidParams, f) else
      match Decoded(SelectRead(f, r), f.rate.next)
      case Reading(rate, prot) => (Success, f.(monitorRate := rate, monitorProt := prot))
      case BadParams => (InvalidParams, f)
      case Failed => (Fail, f)
  }

  function Cancelled(c: Control): Control {
    c.(change := false, next := c.current)
  }

  /** The capabilities that go with the rate read back. */
  function WithCapabilities(f: Iface): Iface {
    if f.monitorRate == STM1 || f.monitorRate == STM4 || f.monitorRate == STM16
      then f.(pfcCapable := true, fecCapable := false)
    else if f.monitorRate == OTU1 then f.(pfcCapable := true, fecCapable := true)
    else f.(pfcCapable := false, fecCapable := false)
  }

  /** A rate that reads back as it was requested is committed. */
  function Committed(f: Iface): Iface {
    if f.monitorRate == f.rate.next then
      WithCapabilities(f.(rate := f.rate.(change := false, current := f.rate.next)))
    else f
  }

  /** The module comes and goes with the capability. */
  function WithModule(f: Iface): Iface {
    f.(pfc := f.pfcCapable)
  }

  function SettleRate(f: Iface, r: Regs): (Iface, Regs) {
    if !f.rate.change then (f, r)
    else if !f.multiRate then (f.(rate := Cancelled(f.rate)), r)
    else
      var (done, f1, r1) := SetRate(f, r);
      if done != Success then (f1.(rate := f1.rate.(change := false)), r1) else
      var (read, f2) := ReadRate(f1, r1);
      var f3 := if read == Success then WithModule(Committed(f2)) else f2;
      (f3.(resetCounters := true, rate := f3.rate.(change := false)), r1)
  }

  // ----- The other requests --------------------------------------------------------------------

  function SettleCounters(f: Iface): Iface {
    f.(resetCounters := false)
  }

  /** Out of service switches monitoring and the transmitter off. In service does not switch the
      transmitter back on. */
  function SettleService(f: Iface): Iface {
    if !f.service.change then f else
      var f1 :=
        if f.service.next == OOS then f.(monitor := false, tx := f.tx.(next := 1, change := true))
        else if f.service.next == IS then f.(monitor := true)
        else if f.service.next == MT then f.(monitor := false)
        else f;
      f1.(service := f1.service.(current := f1.service.next, change := false))
  }

  /** The rates that start-up does not ask for again, and that clients 8 to 15 set anew when they
      return to no loopback. */
  predicate HeldBack(rate: nat) {
    rate == OTU1 || rate == STM16 || rate == FC2
  }

  /** Whether a loopback mode sets the rate again on its way. */
  predicate LoopbackSetsRate(f: Iface) {
    && IsClient(f)
    && (f.loopback.next == TO_LINE ==> f.index < 8)
    && (f.loopback.next == NORMAL ==> f.index < 8 || HeldBack(f.rate.next))
    && f.loopback.next <= TO_LINE
  }

  function SettleLoopback(f: Iface, r: Regs): (Iface, Regs) {
    if !f.loopback.change then (f, r) else
      var (_, f1, r1) := if LoopbackSetsRate(f) then SetRate(f, r) else (Success, f, r);
      (f1.(loopback := f1.loopback.(current := f1.loopback.next, change := false)), r1)
  }

  /** The transmitter is commanded, and the request is done when the pin reads back as wanted. */
  function SettleTx(f: Iface, readBack: nat): Iface {
    if !f.tx.change then f
    else f.(txPin := f.tx.next, tx := f.tx.(current := readBack, change := readBack != f.tx.next))
  }

  /** What the pass does with one interface, in its order. */
  function Settle(f: Iface, r: Regs, readBack: nat): (Iface, Regs) {
    var (f1, r1) := SettleLoopback(SettleService(SettleCounters(f)), r);
    var (f2, r2) := SettleRate(f1, r1);
    (SettleTx(f2, readBack), r2)
  }

  // ----- Commands and restoration --------------------------------------------------------------

  /** What happens to an interface. KURS stores the raw value of a state or loopback command into the
      value in force, after the request has been made. The last three are the direct writes of the
      IPGLB protocol, which checks neither the state nor the values. */
  datatype Event =
    | Visit(readBack: nat)
    | SetState(v: nat)
    | EnableTx(v: nat, absent: bool)
    | SetLoopback(v: nat, absent: bool)
    | SetDataType(rate: nat)
    | ResetCounters
    | Restore
    | WriteTx(v: nat)
    | WriteRate(v: nat)
    | WriteLoopback(v: nat)

  function Request(f: Iface, e: Event): Iface
    requires !e.Visit?
  {
    match e
    case SetState(v) => f.(service := Control(v % 4, v, true))
    case EnableTx(v, absent) =>
      if absent || f.service.current == OOS then f
      else f.(tx := f.tx.(next := if v % 2 == 1 then 0 else 1, change := true))
    case SetLoopback(v, absent) =>
      if !absent then f.(loopback := Control(v % 4, v, true)) else f
    case SetDataType(rate) =>
      if f.multiRate then f.(rate := f.rate.(next := rate, change := true)) else f
    case ResetCounters => f.(resetCounters := true)
    case Restore =>
      f.(service := Control(IS, IS, true), monitor := true, tx := Control(0, 0, true),
         loopback := Control(NORMAL, NORMAL, true), rate := Control(STM1, STM1, true), resetCounters := true)
    case WriteTx(v) => f.(tx := f.tx.(next := v % 2, change := true))
    case WriteRate(v) => f.(rate := f.rate.(next := v, change := true))
    case WriteLoopback(v) => f.(loopback := f.loopback.(next := v, change := true))
  }

  function Happens(f: Iface, r: Regs, e: Event): (Iface, Regs) {
    if e.Visit? then Settle(f, r, e.readBack) else (Request(f, e), r)
  }

  /** An interface as its initialisation leaves it, with the default values of the profile. */
  function Initial(index: nat, mapped: bool): Iface {
    var client := index < CLIENTS;
    Iface(index, client, mapped, true, !client, false, true, Control(IS, IS, false), Control(NORMAL, NORMAL, false),
          Control(STM1, STM1, client),
          if client then STM1 else OTU2, if client then SDH else OTU, Control(0, 0, false), 0, false)
  }

  /** What the user's settings in flash say about an interface. */
  datatype Settings = Settings(service: nat, rate: nat, loopback: nat, tx: nat)

  /** The settings replace the values in force. */
  function Preferred(f: Iface, s: Settings): Iface {
    f.(service := f.service.(current := s.service), rate := f.rate.(current := s.rate),
       loopback := f.loopback.(current := s.loopback), tx := f.tx.(current := s.tx))
  }

  /** Without settings the values in force are the defaults. */
  function Defaults(): Settings {
    Settings(IS, STM1, NORMAL, 0)
  }

  lemma DefaultsArePreferred(index: nat, mapped: bool)
    ensures Preferred(Initial(index, mapped), Defaults()) == Initial(index, mapped)
  {
  }

  /** An interface as start-up leaves it. */
  function StartedUp(index: nat, mapped: bool, s: Settings): Iface {
    Booted(Preferred(Initial(index, mapped), s))
  }

  /** Start-up asks for the rate in force again, except for the held back ones. */
  function BootedRate(f: Iface): Iface {
    if !IsClient(f) then f else
      f.(rate := Control(f.rate.current, f.rate.current, !HeldBack(f.rate.current)))
  }

  function BootedTx(f: Iface): Iface {
    if f.service.next == OOS then f.(tx := Control(1, 1, true)) else f.(tx := Control(f.tx.current, f.tx.current, true))
  }

  /** What start-up makes of them. */
  function Booted(f: Iface): Iface {
    BootedTx(BootedRate(f.(service := f.service.(next := f.service.current, change := true))).(
      pfc := true, resetCounters := true, loopback := f.loopback.(next := f.loopback.current, change := true)))
  }

  // ----- Safety --------------------------------------------------------------------------------

  /** Out of service, with no other state asked for: the transmitter is to be off and has been
      commanded off. */
  predicate SafeOut(f: Iface) {
    !f.service.change && f.service.current == OOS ==> f.tx.next == 1 && f.txPin == 1
  }

  /** Monitored, with no other state asked for: in service. */
  predicate OnlyInService(f: Iface) {
    !f.service.change && f.monitor ==> f.service.current == IS
  }

  predicate ModuleAsCapable(f: Iface) {
    f.pfc == f.pfcCapable
  }

  /** The direct write of the transmitter does not look at the service state. */
  predicate Harmless(f: Iface, e: Event) {
    e.WriteTx? ==> e.v % 2 == 1 || f.service.change || f.service.current != OOS
  }

  /** The steps after which an interface is safe, whatever it was before: a state is asked for, or the
      transmitter is asked off and has been or is commanded so. */
  predicate TurnsOff(f: Iface, e: Event) {
    || e.SetState? || e.Restore?
    || (e.WriteTx? && e.v % 2 == 1 && f.txPin == 1)
    || (e.Visit? && f.tx.next == 1 && f.tx.change)
  }

  /** Setting a rate touches nothing but the rate in force. */
  lemma SetRateKeeps(f: Iface, r: Regs)
    ensures var (_, f', _) := SetRate(f, r);
      && f' == f.(rate := f.rate.(current := f'.rate.current))
      && (f'.rate.current == f.rate.current || (f.multiRate && f.mapped && f'.rate.current == f.rate.next))
  {
  }

  /** A loopback request may put the rate asked for in force, and changes nothing else but itself. */
  lemma SettleLoopbackKeeps(f: Iface, r: Regs)
    ensures var (f', _) := SettleLoopback(f, r);
      && f' == f.(loopback := f'.loopback, rate := f.rate.(current := f'.rate.current))
      && (f'.rate.current == f.rate.current || (f.multiRate && f.mapped && f'.rate.current == f.rate.next))
  {
    hide SetRate, LoopbackSetsRate;
    SetRateKeeps(f, r);
  }

  lemma SettleServiceKeeps(f: Iface)
    ensures var f' := SettleService(f); f' == f.(monitor := f'.monitor, tx := f'.tx, service := f'.service)
  {
    if f.service.next == OOS {
    } else if f.service.next == IS {
    } else if f.service.next == MT {
    }
  }

  lemma SettleTxKeeps(f: Iface, readBack: nat)
    ensures var f' := SettleTx(f, readBack); f' == f.(tx := f'.tx, txPin := f'.txPin)
  {
  }

  lemma ReadRateKeeps(f: Iface, r: Regs)
    ensures var (_, f') := ReadRate(f, r);
      f' == f.(monitorRate := f'.monitorRate, monitorProt := f'.monitorProt)
  {
    hide Decoded, SelectRead;
  }

  lemma CommittedKeeps(f: Iface)
    ensures var f' := Committed(f);
      && f' == f.(pfcCapable := f'.pfcCapable, fecCapable := f'.fecCapable, rate := f'.rate)
      && f'.rate.next == f.rate.next
      && (f.rate.current == f.rate.next ==> f'.rate.current == f'.rate.next)
      && (f' == f || f'.rate.current == f.rate.next)
  {
  }

  lemma SettleRateKeeps(f: Iface, r: Regs)
    requires Formed(f)
    ensures var (f', _) := SettleRate(f, r);
      && Formed(f') && f'.service == f.service && f'.monitor == f.monitor && f'.tx == f.tx && f'.txPin == f.txPin
      && (ModuleAsCapable(f) ==> ModuleAsCapable(f')) && !f'.rate.change && f'.loopback == f.loopback
  {
    hide Written, ReadRate, Committed;
    var (done, f1, r1) := SetRate(f, r);
    ReadRateKeeps(f1, r1);
    CommittedKeeps(ReadRate(f1, r1).1);
  }

  /** Out of service with no other state asked for, and the transmitter off or about to be. */
  predicate OutNextOff(f: Iface) {
    !f.service.change && (f.service.current == OOS ==> f.tx.next == 1 && (f.tx.change || f.txPin == 1))
  }

  lemma ServiceTurnsOff(f: Iface)
    ensures OutNextOff(SettleService(f)) <==> SafeOut(f) || (f.tx.next == 1 && f.tx.change)
  {
  }

  lemma TxTurnsOff(f: Iface, readBack: nat)
    requires !f.service.change
    ensures SafeOut(SettleTx(f, readBack)) <==> OutNextOff(f)
  {
  }

  /** After a visit an interface is safe exactly if it was, or the transmitter was to be switched off. */
  lemma VisitTurnsOff(f: Iface, r: Regs, readBack: nat)
    requires Formed(f)
    ensures SafeOut(Settle(f, r, readBack).0) <==> SafeOut(f) || (f.tx.next == 1 && f.tx.change)
    ensures ModuleAsCapable(f) ==> ModuleAsCapable(Settle(f, r, readBack).0)
  {
    hide SettleLoopback, SettleRate, SettleService, SettleTx, SafeOut, OutNextOff;
    var f0 := SettleService(SettleCounters(f));
    SettleServiceKeeps(SettleCounters(f));
    SettleServiceEnds(SettleCounters(f));
    ServiceTurnsOff(SettleCounters(f));
    SafeOutOfSame(f, SettleCounters(f));
    var (f1, r1) := SettleLoopback(f0, r);
    SettleLoopbackKeeps(f0, r);
    var f2 := SettleRate(f1, r1).0;
    SettleRateKeeps(f1, r1);
    SafeOutOfSame(f0, f2);
    TxTurnsOff(f2, readBack);
    SettleTxKeeps(f2, readBack);
  }

  lemma SafeOutOfSame(f: Iface, f': Iface)
    requires f'.service == f.service && f'.tx == f.tx && f'.txPin == f.txPin
    ensures SafeOut(f') == SafeOut(f) && OutNextOff(f') == OutNextOff(f)
  {
  }

  /** After a step an interface is safe exactly if it was and the step is no direct write that enables
      the transmitter while the interface is settled out of service, or if the step turns it off. */
  lemma StepKeepsSafe(f: Iface, r: Regs, e: Event)
    requires Formed(f)
    ensures SafeOut(Happens(f, r, e).0) <==> (SafeOut(f) && Harmless(f, e)) || TurnsOff(f, e)
  {
    if e.Visit? {
      hide Settle;
      VisitTurnsOff(f, r, e.readBack);
    }
  }

  lemma StepKeepsModule(f: Iface, r: Regs, e: Event)
    requires Formed(f) && ModuleAsCapable(f)
    ensures ModuleAsCapable(Happens(f, r, e).0)
  {
    if e.Visit? {
      hide Settle;
      VisitTurnsOff(f, r, e.readBack);
    }
  }

  /** The state commands that ask for one of the three states. */
  predicate Meant(e: Event) {
    e.SetState? ==> IsState(e.v % 4)
  }

  predicate IsState(v: nat) {
    v == OOS || v == MT || v == IS
  }

  /** Monitoring and state agree, and a state change that is due asks for one of the three states. */
  predicate InOrder(f: Iface) {
    OnlyInService(f) && (f.service.change ==> IsState(f.service.next))
  }

  /** The steps that bring monitoring and state together again, whatever they were. */
  predicate SetsInOrder(f: Iface, e: Event) {
    e.SetState? || e.Restore? || (e.Visit? && f.service.change && !f.monitor)
  }

  /** A visit makes monitoring and state agree exactly if the state asked for is one of the three or
      nothing is monitored. Any other value leaves monitoring as it was. */
  lemma VisitKeepsMonitoring(f: Iface, r: Regs, readBack: nat)
    requires Formed(f) && f.service.change
    ensures OnlyInService(Settle(f, r, readBack).0) <==> IsState(f.service.next) || !f.monitor
  {
    hide Settle;
    VisitTakesEffect(f, r, readBack);
    VisitMonitors(f, r, readBack);
  }

  /** A state of 7 in the user's settings, say, leaves an interface monitored in no service state. */
  lemma StoredStateBreaks(r: Regs)
    ensures !OnlyInService(Settle(StartedUp(0, true, Settings(7, STM1, NORMAL, 0)), r, 0).0)
  {
    VisitKeepsMonitoring(StartedUp(0, true, Settings(7, STM1, NORMAL, 0)), r, 0);
  }

  /** With state commands for the three states, a step leaves an interface in order exactly if it was
      or if the step is one that sets it in order. */
  lemma StepKeepsMonitoring(f: Iface, r: Regs, e: Event)
    requires Formed(f) && Meant(e)
    ensures InOrder(Happens(f, r, e).0) <==> InOrder(f) || SetsInOrder(f, e)
  {
    if e.Visit? {
      hide Settle;
      VisitTakesEffect(f, r, e.readBack);
      VisitMonitors(f, r, e.readBack);
    }
  }

  /** Start-up makes an interface safe whatever the user's settings are. */
  lemma BootIsSafe(index: nat, mapped: bool, s: Settings)
    requires index < INTERFACES
    ensures var f := StartedUp(index, mapped, s);
      Formed(f) && SafeOut(f) && ModuleAsCapable(f) && OnlyInService(f)
    ensures InOrder(StartedUp(index, mapped, s)) <==> IsState(s.service)
  {
  }

  // ----- Rates settle --------------------------------------------------------------------------

  /** After a visit no rate request is open. One that was open is in force exactly if the port has one
      rate only, or its registers are mapped, or nothing had to be changed. */
  lemma RateSettles(f: Iface, r: Regs, readBack: nat)
    requires Formed(f)
    ensures var f' := Settle(f, r, readBack).0;
      && !f'.rate.change
      && (f.rate.change ==>
           (f'.rate.current == f'.rate.next <==> !f.multiRate || f.mapped || f.rate.current == f.rate.next))
      && (f.multiRate ==> f'.rate.next == f.rate.next)
  {
    hide SettleLoopback, SettleRate, SettleService, SettleTx;
    var f0 := SettleService(SettleCounters(f));
    SettleServiceKeeps(SettleCounters(f));
    SettleTxKeeps(SettleRate(SettleLoopback(f0, r).0, SettleLoopback(f0, r).1).0, readBack);
    SettleLoopbackKeeps(f0, r);
    SettleRateEnds(SettleLoopback(f0, r).0, SettleLoopback(f0, r).1);
  }

  lemma SettleRateEnds(f: Iface, r: Regs)
    requires Formed(f)
    ensures var (f', _) := SettleRate(f, r);
      && !f'.rate.change && (f.multiRate ==> f'.rate.next == f.rate.next) && f'.tx == f.tx
      && (f.rate.change ==>
           (f'.rate.current == f'.rate.next <==> !f.multiRate || f.mapped || f.rate.current == f.rate.next))
  {
    hide Written, ReadRate, Committed;
    var (done, f1, r1) := SetRate(f, r);
    ReadRateKeeps(f1, r1);
    CommittedKeeps(ReadRate(f1, r1).1);
  }

  /** What a visit makes of an open rate request on a mapped client: the registers hold it, and the
      rate that reads back is the one that was asked for, with its module, exactly for the rates that
      have a select code of their own. */
  lemma ClientRateSettles(f: Iface, r: Regs)
    requires Formed(f) && IsClient(f) && f.mapped && f.rate.change
    ensures var (f', r') := SettleRate(f, r);
      && r' == Written(r, f.index, f.rate.next)
      && f'.rate == Control(f.rate.next, f.rate.next, false)
      && f'.monitorRate == (if ReadsBack(f.rate.next) then f.rate.next else STM1)
      && (ReadsBack(f.rate.next) ==>
           && f'.monitorProt == ProtocolOf(f.rate.next)
           && f'.pfc == f'.pfcCapable == (f.rate.next in {9, 11, 15})
           && f'.fecCapable == (f.rate.next == 15))
  {
    hide Written, ViewOf, Decoded;
    ReadBack(r, f.index, f.rate.next);
  }

  /** STM4 never reads back, so the capabilities of the rate before stay: a client that comes from
      Ethernet is left without the module that STM4 is meant to have. */
  lemma Stm4KeepsCapabilities(f: Iface, r: Regs)
    requires Formed(f) && IsClient(f) && f.mapped && f.rate.change && f.rate.next == STM4
    ensures var (f', _) := SettleRate(f, r);
      f'.pfcCapable == f.pfcCapable && f'.fecCapable == f.fecCapable && f'.pfc == f.pfcCapable && f'.monitorRate == STM1
  {
    hide Written, ViewOf, Decoded;
    ReadBack(r, f.index, STM4);
  }

  // ----- Commands take effect ------------------------------------------------------------------

  /** A visit puts every open state and loopback request in force, and clears the counters unless a
      rate was set. */
  lemma VisitTakesEffect(f: Iface, r: Regs, readBack: nat)
    requires Formed(f)
    ensures var f' := Settle(f, r, readBack).0;
      && f'.service == Control(f'.service.next, if f.service.change then f.service.next else f.service.current, false)
      && f'.service.next == f.service.next
      && f'.loopback ==
        Control(f.loopback.next, if f.loopback.change then f.loopback.next else f.loopback.current, false)
      && (f'.resetCounters <==> f.rate.change && f.multiRate && f.mapped)
  {
    hide SettleRate, SettleLoopback, SettleService, SettleTx;
    var f0 := SettleService(SettleCounters(f));
    SettleServiceKeeps(SettleCounters(f));
    SettleServiceEnds(SettleCounters(f));
    var (f1, r1) := SettleLoopback(f0, r);
    SettleLoopbackKeeps(f0, r);
    LoopbackEnds(f0, r);
    SettleRateKeeps(f1, r1);
    SettleRateResets(f1, r1);
    SettleTxKeeps(SettleRate(f1, r1).0, readBack);
  }

  /** The counters of an interface are to be cleared after the command for it, a restoration and a
      start-up, and no other command asks for it. The next visit clears them, and asks for it again if it
      sets a rate. */
  lemma CountersAreCleared(f: Iface, r: Regs, e: Event, readBack: nat, index: nat, mapped: bool, s: Settings)
    requires Formed(f) && !e.Visit?
    ensures Request(f, e).resetCounters == (e.ResetCounters? || e.Restore? || f.resetCounters)
    ensures StartedUp(index, mapped, s).resetCounters
    ensures !f.rate.change ==> !Settle(f, r, readBack).0.resetCounters
    ensures f.rate.change && f.multiRate && f.mapped ==> Settle(f, r, readBack).0.resetCounters
  {
    hide Settle, StartedUp, Request;
    RequestResets(f, e);
    StartUpResets(index, mapped, s);
    VisitTakesEffect(f, r, readBack);
  }

  lemma RequestResets(f: Iface, e: Event)
    requires !e.Visit?
    ensures Request(f, e).resetCounters == (e.ResetCounters? || e.Restore? || f.resetCounters)
  {
  }

  lemma StartUpResets(index: nat, mapped: bool, s: Settings)
    ensures StartedUp(index, mapped, s).resetCounters
  {
  }

  /** What belongs to the rate of a port with one rate never changes. */
  lemma StepKeepsFixed(f: Iface, r: Regs, e: Event)
    requires Formed(f) && !f.multiRate
    ensures var f' := Happens(f, r, e).0;
      && f'.monitorRate == f.monitorRate && f'.monitorProt == f.monitorProt && f'.pfc == f.pfc
      && f'.pfcCapable == f.pfcCapable && f'.fecCapable == f.fecCapable && !f'.multiRate && f'.index == f.index
  {
    hide SettleLoopback, SettleService, SettleTx, SetRate, ReadRate, Committed;
    if e.Visit? {
      var f0 := SettleService(SettleCounters(f));
      SettleServiceKeeps(SettleCounters(f));
      var (f1, r1) := SettleLoopback(f0, r);
      SettleLoopbackKeeps(f0, r);
      SettleTxKeeps(SettleRate(f1, r1).0, e.readBack);
    }
  }

  lemma SettleServiceEnds(f: Iface)
    ensures var f' := SettleService(f);
      && f'.service == Control(f.service.next, if f.service.change then f.service.next else f.service.current, false)
      && f'.tx == (if f.service.change && f.service.next == OOS then Control(1, f.tx.current, true) else f.tx)
  {
  }

  /** The transmitter is commanded as asked, off if the port goes out of service, and the request stays
      open until the pin reads back so. */
  lemma VisitCommandsTx(f: Iface, r: Regs, readBack: nat)
    requires Formed(f)
    ensures var f' := Settle(f, r, readBack).0;
      var out := f.service.change && f.service.next == OOS;
      && f'.tx.next == (if out then 1 else f.tx.next)
      && (if f.tx.change || out
          then f'.txPin == f'.tx.next && f'.tx.current == readBack && f'.tx.change == (readBack != f'.tx.next)
          else f'.tx == f.tx && f'.txPin == f.txPin)
  {
    hide SettleRate, SettleLoopback, SettleService;
    var f0 := SettleService(SettleCounters(f));
    SettleServiceKeeps(SettleCounters(f));
    SettleServiceEnds(SettleCounters(f));
    var (f1, r1) := SettleLoopback(f0, r);
    SettleLoopbackKeeps(f0, r);
    SettleRateKeeps(f1, r1);
  }

  lemma SettleRateResets(f: Iface, r: Regs)
    requires Formed(f)
    ensures SettleRate(f, r).0.resetCounters <==> f.resetCounters || (f.rate.change && f.multiRate && f.mapped)
  {
    hide Written, ReadRate, Committed;
    var (done, f1, r1) := SetRate(f, r);
    ReadRateKeeps(f1, r1);
    CommittedKeeps(ReadRate(f1, r1).1);
  }

  /** A transmitter that is enabled and a port that is put out of service before the same visit, in
      either order, end with the transmitter commanded off. */
  lemma OutOfServiceWins(f: Iface, r: Regs, v: nat, on: nat, absent: bool, readBack: nat)
    requires Formed(f) && v % 4 == OOS
    ensures var f1 := Request(Request(f, SetState(v)), EnableTx(on, absent));
      var f2 := Request(Request(f, EnableTx(on, absent)), SetState(v));
      && Settle(f1, r, readBack).0.txPin == 1 && Settle(f1, r, readBack).0.tx.next == 1
      && Settle(f2, r, readBack).0.txPin == 1 && Settle(f2, r, readBack).0.tx.next == 1
  {
    hide Settle;
    var f1 := Request(Request(f, SetState(v)), EnableTx(on, absent));
    var f2 := Request(Request(f, EnableTx(on, absent)), SetState(v));
    VisitCommandsTx(f1, r, readBack);
    VisitCommandsTx(f2, r, readBack);
  }

  /** What monitoring is after a visit. */
  lemma VisitMonitors(f: Iface, r: Regs, readBack: nat)
    requires Formed(f)
    ensures Settle(f, r, readBack).0.monitor ==
      if !f.service.change || !IsState(f.service.next) then f.monitor else f.service.next == IS
  {
    hide SettleLoopback, SettleRate, SettleTx, SettleService;
    var f0 := SettleService(SettleCounters(f));
    SettleServiceKeeps(SettleCounters(f));
    ServiceMonitors(SettleCounters(f));
    SettleLoopbackKeeps(f0, r);
    SettleRateKeeps(SettleLoopback(f0, r).0, SettleLoopback(f0, r).1);
    SettleTxKeeps(SettleRate(SettleLoopback(f0, r).0, SettleLoopback(f0, r).1).0, readBack);
  }

  lemma ServiceMonitors(f: Iface)
    ensures SettleService(f).monitor ==
      if !f.service.change || !IsState(f.service.next) then f.monitor else f.service.next == IS
  {
  }

  /** A state or loopback command is in force one visit later, in its low two bits. */
  lemma StateTakesEffect(f: Iface, r: Regs, v: nat, readBack: nat)
    requires Formed(f)
    ensures var f' := Settle(Request(f, SetState(v)), r, readBack).0;
      && f'.service == Control(v % 4, v % 4, false)
      && (v % 4 == 0 ==> !f'.monitor && f'.txPin == 1)
      && (v % 4 == 1 ==> !f'.monitor) && (v % 4 == 2 ==> f'.monitor)
    ensures Settle(Request(f, SetLoopback(v, false)), r, readBack).0.loopback == Control(v % 4, v % 4, false)
  {
    hide Settle;
    var f1, f2 := Request(f, SetState(v)), Request(f, SetLoopback(v, false));
    VisitTakesEffect(f1, r, readBack);
    VisitCommandsTx(f1, r, readBack);
    VisitMonitors(f1, r, readBack);
    VisitTakesEffect(f2, r, readBack);
  }

  /** A transmitter command reaches the pin one visit later exactly if there is a transceiver, the port
      is not out of service and is not about to be; otherwise it changes nothing of its own. */
  lemma EnableTakesEffect(f: Iface, r: Regs, v: nat, absent: bool, readBack: nat)
    requires Formed(f)
    ensures absent || f.service.current == OOS ==> Request(f, EnableTx(v, absent)) == f
    ensures !absent && f.service.current != OOS ==>
      Settle(Request(f, EnableTx(v, absent)), r, readBack).0.txPin ==
        if v % 2 == 1 && !(f.service.change && f.service.next == OOS) then 0 else 1
  {
    hide Settle;
    VisitCommandsTx(Request(f, EnableTx(v, absent)), r, readBack);
  }

  /** Until the visit a state command has left its raw value in force, so it is that value, and not its
      low two bits, that decides about a transmitter command: after a command for state 4 the transmitter
      can be asked for, after one for state 0 it cannot. Either way it ends commanded off. */
  lemma RawStateDecides(f: Iface, r: Regs, v: nat, on: nat, readBack: nat)
    requires Formed(f)
    ensures var f1 := Request(f, SetState(v));
      var f2 := Request(f1, EnableTx(on, false));
      && f1.service == Control(v % 4, v, true)
      && f2.tx == (if v == 0 then f.tx else Control(if on % 2 == 1 then 0 else 1, f.tx.current, true))
      && (v % 4 == 0 ==> Settle(f2, r, readBack).0.txPin == 1)
  {
    hide Settle;
    VisitCommandsTx(Request(Request(f, SetState(v)), EnableTx(on, false)), r, readBack);
  }

  /** A rate asked for on a mapped client is in force and in the registers one visit later. */
  lemma DataTypeTakesEffect(f: Iface, r: Regs, rate: nat, readBack: nat)
    requires Formed(f)
    ensures !f.multiRate ==> Request(f, SetDataType(rate)) == f
    ensures IsClient(f) && f.mapped ==>
      var (f', r') := Settle(Request(f, SetDataType(rate)), r, readBack);
      f'.rate == Control(rate, rate, false) && Reflects(ViewOf(r', f.index), rate)
  {
    hide Settle, ViewOf, Reflects;
    var f1 := Request(f, SetDataType(rate));
    RateSettles(f1, r, readBack);
    if IsClient(f) && f.mapped {
      VisitAgrees(f1, r, readBack);
      VisitWritesOwn(f1, r, readBack);
    }
  }

  /** The direct writes one visit later. The rate is in force on a mapped client and given up on a
      fixed-rate port, the loopback mode is in force uncut, and the transmitter is commanded unless the
      port is about to go out of service. */
  lemma DirectWritesTakeEffect(f: Iface, r: Regs, v: nat, readBack: nat)
    requires Formed(f)
    ensures IsClient(f) && f.mapped ==>
      var (f', r') := Settle(Request(f, WriteRate(v)), r, readBack);
      f'.rate == Control(v, v, false) && Reflects(ViewOf(r', f.index), v)
    ensures !f.multiRate ==>
      Settle(Request(f, WriteRate(v)), r, readBack).0.rate == Control(f.rate.current, f.rate.current, false)
    ensures Settle(Request(f, WriteLoopback(v)), r, readBack).0.loopback == Control(v, v, false)
    ensures Settle(Request(f, WriteTx(v)), r, readBack).0.txPin ==
      if f.service.change && f.service.next == OOS then 1 else v % 2
  {
    hide Settle, ViewOf, Reflects;
    var f1 := Request(f, WriteRate(v));
    RateSettles(f1, r, readBack);
    if IsClient(f) && f.mapped {
      VisitAgrees(f1, r, readBack);
      VisitWritesOwn(f1, r, readBack);
    }
    FixedRateStays(f1, r, readBack);
    VisitTakesEffect(Request(f, WriteLoopback(v)), r, readBack);
    VisitCommandsTx(Request(f, WriteTx(v)), r, readBack);
  }

  lemma FixedRateStays(f: Iface, r: Regs, readBack: nat)
    requires Formed(f)
    ensures !f.multiRate ==>
      Settle(f, r, readBack).0.rate == if f.rate.change then Control(f.rate.current, f.rate.current, false) else f.rate
  {
    hide SettleLoopback, SettleService, SettleTx, SetRate, ReadRate, Committed;
    var f0 := SettleService(SettleCounters(f));
    SettleServiceKeeps(SettleCounters(f));
    var (f1, r1) := SettleLoopback(f0, r);
    SettleLoopbackKeeps(f0, r);
    SettleTxKeeps(SettleRate(f1, r1).0, readBack);
  }

  /** What is in force one visit after start-up: the user's settings, with the transmitter off if the
      port starts out of service. */
  lemma BootTakesEffect(index: nat, s: Settings, r: Regs, readBack: nat)
    requires index < INTERFACES
    ensures var f' := Settle(StartedUp(index, true, s), r, readBack).0;
      && f'.service == Control(s.service, s.service, false) && f'.loopback == Control(s.loopback, s.loopback, false)
      && f'.txPin == (if s.service == OOS then 1 else s.tx)
      && (IsClient(f') ==> f'.rate == Control(s.rate, s.rate, false))
  {
    hide StartedUp, Settle;
    BootIsSafe(index, true, s);
    BootedSettings(index, s);
    BootVisit(StartedUp(index, true, s), r, readBack);
  }

  lemma BootedSettings(index: nat, s: Settings)
    requires index < INTERFACES
    ensures var f := StartedUp(index, true, s);
      && f.index == index && f.mapped && f.service == Control(s.service, s.service, true)
      && f.loopback == Control(s.loopback, s.loopback, true)
      && f.tx == (if s.service == OOS then Control(1, 1, true) else Control(s.tx, s.tx, true))
      && (IsClient(f) ==> f.rate.current == f.rate.next == s.rate)
  {
  }

  lemma BootVisit(f: Iface, r: Regs, readBack: nat)
    requires Formed(f) && f.mapped && f.service.change && f.tx.change && f.loopback.change
    requires f.service.current == f.service.next && (f.service.next == OOS ==> f.tx.next == 1)
    requires IsClient(f) ==> f.rate.current == f.rate.next
    ensures var f' := Settle(f, r, readBack).0;
      && f'.service == Control(f.service.next, f.service.next, false)
      && f'.loopback == Control(f.loopback.next, f.loopback.next, false)
      && f'.txPin == f.tx.next && f'.index == f.index
      && (IsClient(f) ==> f'.rate == Control(f.rate.next, f.rate.next, false))
  {
    hide SettleLoopback, SettleRate, SettleService, SettleTx;
    VisitTakesEffect(f, r, readBack);
    VisitCommandsTx(f, r, readBack);
    RateSettles(f, r, readBack);
    var f0 := SettleService(SettleCounters(f));
    SettleServiceKeeps(SettleCounters(f));
    var (f1, r1) := SettleLoopback(f0, r);
    SettleLoopbackKeeps(f0, r);
    SettleRateIdentity(f1, r1);
    if IsClient(f) {
      SettleRateIdle(f1, r1);
    }
    SettleTxKeeps(SettleRate(f1, r1).0, readBack);
  }

  /** A visit never takes a rate in force away that is the one asked for. */
  lemma SettleRateIdle(f: Iface, r: Regs)
    requires f.rate.current == f.rate.next
    ensures SettleRate(f, r).0.rate.current == SettleRate(f, r).0.rate.next == f.rate.next
  {
    hide Written, ReadRate, Committed;
    var (done, f1, r1) := SetRate(f, r);
    ReadRateKeeps(f1, r1);
    CommittedKeeps(ReadRate(f1, r1).1);
  }

  /** The defaults, one visit later: in service, monitored, transmitter on, and a mapped client at
      STM1 in record and registers. */
  lemma RestoredAfterVisit(f: Iface, r: Regs)
    requires Formed(f)
    ensures var (f', r') := Settle(Request(f, Restore), r, 0);
      && f'.service == Control(IS, IS, false) && f'.monitor && f'.tx == Control(0, 0, false) && f'.txPin == 0
      && f'.loopback == Control(NORMAL, NORMAL, false)
      && (IsClient(f) && f.mapped ==> f'.rate == Control(STM1, STM1, false) && Reflects(ViewOf(r', f.index), STM1))
  {
    hide SettleLoopback, SettleRate, ViewOf, Reflects;
    var f1 := Request(f, Restore);
    var f0 := SettleService(SettleCounters(f1));
    SettleLoopbackKeeps(f0, r);
    var (f2, r2) := SettleLoopback(f0, r);
    LoopbackEnds(f0, r);
    LoopbackAgrees(f0, r);
    SettleRateKeeps(f2, r2);
    SettleRateEnds(f2, r2);
    RateAgrees(f2, r2);
    SettleRateIdentity(f2, r2);
  }

  /** A loopback request sets the rate of a mapped client on its way, in record and registers, exactly
      for the three modes on the first eight clients, and on the others for the loop to the client, or for
      none with OTU1, STM16 or FC2. Apart from that it changes nothing but itself. */
  lemma LoopbackSettles(f: Iface, r: Regs)
    requires Formed(f)
    ensures var (f', r') := SettleLoopback(f, r);
      && f' == f.(loopback := f'.loopback, rate := f'.rate)
      && f'.loopback ==
        Control(f.loopback.next, if f.loopback.change then f.loopback.next else f.loopback.current, false)
      && if && f.loopback.change && f.index < 16 && f.mapped
            && ((f.index < 8 && f.loopback.next <= 2) || f.loopback.next == 1 ||
                (f.loopback.next == 0 && f.rate.next in {15, 11, 14}))
         then f'.rate == f.rate.(current := f.rate.next) && r' == Written(r, f.index, f.rate.next)
         else f'.rate == f.rate && r' == r
  {
    hide Written;
    LoopbackEnds(f, r);
  }

  lemma LoopbackEnds(f: Iface, r: Regs)
    ensures SettleLoopback(f, r).0.loopback ==
      Control(f.loopback.next, if f.loopback.change then f.loopback.next else f.loopback.current, false)
  {
    hide Written, LoopbackSetsRate;
    SetRateKeeps(f, r);
  }

  // ----- Records and registers agree -----------------------------------------------------------

  /** The registers say of a client that its rate is `rate`. */
  predicate Reflects(v: View, rate: nat) {
    && v.select == Code(rate) && v.reconfigure == 0 && v.odtu == rate % 16
    && (rate == STM1 ==> v.sdh == 0) && (rate == STM4 ==> v.sdh == 1)
  }

  /** A mapped client with no open rate request has the rate in force that its registers hold. */
  predicate Agrees(f: Iface, r: Regs) {
    IsClient(f) && f.mapped && !f.rate.change ==>
      f.rate.next == f.rate.current && Reflects(ViewOf(r, f.index), f.rate.current)
  }

  ghost predicate OnlyOwn(r: Regs, r': Regs, k: nat) {
    forall j :: 0 <= j < CLIENTS && j != k ==> ViewOf(r', j) == ViewOf(r, j)
  }

  lemma SetRateAgrees(f: Iface, r: Regs)
    requires Formed(f)
    ensures var (done, f', r') := SetRate(f, r);
      && OnlyOwn(r, r', f.index)
      && (done == Success ==>
           f'.rate.current == f'.rate.next && IsClient(f) && Reflects(ViewOf(r', f.index), f'.rate.current))
      && (done != Success ==> f' == f && r' == r && (IsClient(f) ==> !f.mapped))
  {
    hide Written, ViewOf, Reflects;
    if IsClient(f) {
      forall j | 0 <= j < CLIENTS
        ensures ViewOf(Written(r, f.index, f.rate.next), j) ==
          if j == f.index then NewView(ViewOf(r, j), f.rate.next) else ViewOf(r, j)
      {
        WritesOneClient(r, f.index, f.rate.next, j);
      }
      NewViewReflects(ViewOf(r, f.index), f.rate.next);
    }
  }

  lemma NewViewReflects(v: View, rate: nat)
    ensures Reflects(NewView(v, rate), rate)
  {
  }

  /** Whatever the record said before, a visit writes only the client's own fields. */
  lemma VisitWritesOwn(f: Iface, r: Regs, readBack: nat)
    requires Formed(f)
    ensures OnlyOwn(r, Settle(f, r, readBack).1, f.index)
    ensures var f' := Settle(f, r, readBack).0; Formed(f') && f'.index == f.index && f'.mapped == f.mapped
  {
    hide SettleLoopback, SettleRate, SettleService, SettleTx, ViewOf;
    var f0 := SettleService(SettleCounters(f));
    SettleServiceKeeps(SettleCounters(f));
    var (f1, r1) := SettleLoopback(f0, r);
    SettleLoopbackKeeps(f0, r);
    LoopbackWritesOwn(f0, r);
    RateWritesOwn(f1, r1);
    SettleRateIdentity(f1, r1);
    SettleTxKeeps(SettleRate(f1, r1).0, readBack);
  }

  lemma LoopbackWritesOwn(f: Iface, r: Regs)
    requires Formed(f)
    ensures OnlyOwn(r, SettleLoopback(f, r).1, f.index)
  {
    hide SetRate, LoopbackSetsRate, ViewOf;
    SetRateAgrees(f, r);
  }

  lemma RateWritesOwn(f: Iface, r: Regs)
    requires Formed(f)
    ensures OnlyOwn(r, SettleRate(f, r).1, f.index)
  {
    hide SetRate, ReadRate, Committed, ViewOf;
    SetRateAgrees(f, r);
  }

  /** The steps after which record and registers agree, whatever they said before: those that close
      the gap, and those that open a request. A visit closes it for a loopback request by which the rate
      is set: on the first eight clients any of the three modes, on the others the loop to the client,
      or none with OTU1, STM16 or FC2. */
  predicate SetsInAgreement(f: Iface, e: Event) {
    || (e.Visit? && f.loopback.change && f.index < 16 &&
        (|| (f.index < 8 && f.loopback.next <= 2) || f.loopback.next == 1
         || (f.loopback.next == 0 && f.rate.next in {15, 11, 14})))
    || (e.SetDataType? && f.multiRate)
    || e.WriteRate? || e.Restore?
  }

  lemma LoopbackAgrees(f: Iface, r: Regs)
    requires Formed(f)
    ensures var (f', r') := SettleLoopback(f, r);
      Agrees(f', r') <==>
        || Agrees(f, r)
        || (f.loopback.change && f.index < 16 &&
            ((f.index < 8 && f.loopback.next <= 2) || f.loopback.next == 1 ||
             (f.loopback.next == 0 && f.rate.next in {15, 11, 14})))
  {
    hide Written, ViewOf, Reflects, SetRate;
    SetRateAgrees(f, r);
    SetRateKeeps(f, r);
  }

  lemma RateAgrees(f: Iface, r: Regs)
    requires Formed(f)
    ensures var (f', r') := SettleRate(f, r); Agrees(f', r') <==> Agrees(f, r)
  {
    hide Written, ViewOf, Reflects, SetRate, ReadRate, Committed;
    var (done, f1, r1) := SetRate(f, r);
    SetRateAgrees(f, r);
    SetRateKeeps(f, r);
    ReadRateKeeps(f1, r1);
    CommittedKeeps(ReadRate(f1, r1).1);
  }

  /** After a visit record and registers agree exactly if they did before or the loopback request has
      set the rate. */
  lemma VisitAgrees(f: Iface, r: Regs, readBack: nat)
    requires Formed(f)
    ensures var (f', r') := Settle(f, r, readBack);
      Agrees(f', r') <==>
        || Agrees(f, r)
        || (f.loopback.change && f.index < 16 &&
            ((f.index < 8 && f.loopback.next <= 2) || f.loopback.next == 1 ||
             (f.loopback.next == 0 && f.rate.next in {15, 11, 14})))
  {
    hide SettleLoopback, SettleRate, SettleService, SettleTx, ViewOf, Reflects;
    var f0 := SettleService(SettleCounters(f));
    SettleServiceKeeps(SettleCounters(f));
    var (f1, r1) := SettleLoopback(f0, r);
    SettleLoopbackKeeps(f0, r);
    LoopbackAgrees(f0, r);
    RateAgrees(f1, r1);
    SettleRateIdentity(f1, r1);
    SettleTxKeeps(SettleRate(f1, r1).0, readBack);
  }

  /** A step leaves record and registers in agreement exactly if they were or the step sees to it. */
  lemma StepKeepsAgreement(f: Iface, r: Regs, e: Event)
    requires Formed(f)
    ensures var (f', r') := Happens(f, r, e);
      Agrees(f', r') <==> Agrees(f, r) || SetsInAgreement(f, e)
  {
    hide Settle, ViewOf, Reflects;
    if e.Visit? {
      VisitAgrees(f, r, e.readBack);
    }
  }

  /** A step at another interface changes nothing about the agreement. */
  lemma OthersKeepAgreement(f: Iface, r: Regs, r': Regs, k: nat)
    requires OnlyOwn(r, r', k) && f.index != k
    ensures Agrees(f, r') <==> Agrees(f, r)
  {
  }

  lemma SettleRateIdentity(f: Iface, r: Regs)
    ensures var (f', _) := SettleRate(f, r); f'.index == f.index && f'.mapped == f.mapped && f'.multiRate == f.multiRate
  {
    hide Written, ReadRate, Committed;
    var (done, f1, r1) := SetRate(f, r);
    ReadRateKeeps(f1, r1);
    CommittedKeeps(ReadRate(f1, r1).1);
  }

  /** A client that starts up with OTU1, STM16 or FC2 has no request for it: record and registers agree
      exactly for the other rates, without registers, or if the registers happen to hold the rate. */
  lemma StartUpAgrees(index: nat, mapped: bool, s: Settings, r: Regs)
    requires index < CLIENTS
    ensures Agrees(StartedUp(index, mapped, s), r) <==>
      !mapped || s.rate !in {15, 11, 14} || Reflects(ViewOf(r, index), s.rate)
  {
    hide ViewOf, Reflects;
  }

  /** It gets the rate from its loopback request alone: after the first visit record and registers
      agree exactly if they did, or the stored loopback mode is none, the loop to the client, or for the
      first eight clients the loop to the line. */
  lemma FirstVisitAgrees(index: nat, s: Settings, r: Regs, readBack: nat)
    requires index < CLIENTS
    ensures var f := StartedUp(index, true, s);
      var (f', r') := Settle(f, r, readBack);
      Agrees(f', r') <==>
        || s.rate !in {15, 11, 14}
        || s.loopback == 0 || s.loopback == 1 || (s.loopback == 2 && index < 8)
        || Reflects(ViewOf(r, index), s.rate)
  {
    hide ViewOf, Reflects, Settle;
    var f := StartedUp(index, true, s);
    StartUpAgrees(index, true, s, r);
    VisitAgrees(f, r, readBack);
  }

  /** For example client 8 with OTU1 and a loop to the line in its settings: its registers stay at
      zero, the code for Ethernet. */
  lemma HeldBackExample(readBack: nat)
    ensures var r := Regs(0, 0, 0, 0, 0, 0);
      var (f', r') := Settle(StartedUp(8, true, Settings(IS, OTU1, TO_LINE, 0)), r, readBack);
      !Agrees(f', r') && f'.rate.current == OTU1
  {
    hide Settle, ViewOf;
    var r, s := Regs(0, 0, 0, 0, 0, 0), Settings(IS, OTU1, TO_LINE, 0);
    ZeroView();
    FirstVisitAgrees(8, s, r, readBack);
    BootTakesEffect(8, s, r, readBack);
  }

  lemma ZeroView()
    ensures ViewOf(Regs(0, 0, 0, 0, 0, 0), 8).select == 0
  {
  }
}

/** The records of the interfaces, which commands and the periodic pass change in place. */
module InterfaceControl {
  import opened RateRegisters
  import opened InterfaceModel
  import opened CardModel

  class Interface {
    const index: nat
    const multiRate: bool
    const mapped: bool
    var pfcCapable: bool
    var fecCapable: bool
    var pfc: bool
    var monitor: bool
    var service: Control
    var loopback: Control
    var rate: Control
    var monitorRate: nat
    var monitorProt: nat
    var tx: Control
    var txPin: nat
    var resetCounters: bool

    constructor (f: Iface)
      ensures Value() == f
    {
      index, multiRate, mapped := f.index, f.multiRate, f.mapped;
      pfcCapable, fecCapable, pfc, monitor := f.pfcCapable, f.fecCapable, f.pfc, f.monitor;
      service, loopback, rate, tx := f.service, f.loopback, f.rate, f.tx;
      monitorRate, monitorProt, txPin, resetCounters := f.monitorRate, f.monitorProt, f.txPin, f.resetCounters;
    }

    ghost function Value(): Iface
      reads this
    {
      Iface(index, multiRate, mapped, pfcCapable, fecCapable, pfc, monitor, service, loopback, rate,
            monitorRate, monitorProt, tx, txPin, resetCounters)
    }

    method SetIfPortRate(regs: TopLevel) returns (ret: Answer)
      modifies this`rate, regs
      ensures (ret, Value(), regs.Value()) == SetRate(old(Value()), old(regs.Value()))
      ensures ret == if !multiRate then InvalidParams else if !mapped then Fail else Success
      ensures ret != Success || index >= 16 ==> Value() == old(Value()) && regs.Value() == old(regs.Value())
      ensures ret == Success && index < 16 ==> rate.current == rate.next == old(rate.next)
    {
      hide Written;
      if !multiRate {
        return InvalidParams;
      }
      if !mapped {
        return Fail;
      }
      if index < CLIENTS {
        regs.Write(index, rate.next);
        rate := rate.(current := rate.next);
      }
      ret := Success;
    }

    method ReadIfPortRate(regs: TopLevel) returns (rc: Answer)
      modifies this`monitorRate, this`monitorProt
      ensures (rc, Value()) == ReadRate(old(Value()), regs.Value())
      ensures !mapped || !multiRate ==> rc == InvalidParams
      ensures rc != Success ==> Value() == old(Value())
    {
      hide ViewOf;
      rc := Success;
      if !mapped || !multiRate {
        rc := InvalidParams;
      }
      if rc == Success {
        var code := 0;
        if index < CLIENTS {
          code := regs.ReadSelect(index);
        }
        if code == 0 {
          if rate.next == FE {
            monitorRate, monitorProt := FE, ETHERNET;
          } else if rate.next == GE {
            monitorRate, monitorProt := GE, ETHERNET;
          } else {
            rc := InvalidParams;
          }
        } else if code == 1 {
          monitorRate, monitorProt := STM1, SDH;
        } else if code == 2 {
          monitorRate, monitorProt := STM16, SDH;
        } else if code == 3 {
          monitorRate, monitorProt := OTU1, OTU;
        } else if code == 4 {
          monitorRate, monitorProt := FC1, FIBER_CHANNEL;
        } else if code == 5 {
          monitorRate, monitorProt := FC2, FIBER_CHANNEL;
        } else if code == 8 {
          monitorRate, monitorProt := STM4, SDH;
        } else {
          rc := Fail;
        }
      }
    }

    method SetIfPortLoopback(regs: TopLevel) returns (ret: Answer)
      modifies this`rate, regs
      ensures ret == Success
      ensures (Value(), regs.Value()) ==
        if LoopbackSetsRate(old(Value()))
          then (SetRate(old(Value()), old(regs.Value())).1, SetRate(old(Value()), old(regs.Value())).2)
        else (old(Value()), old(regs.Value()))
    {
      hide Written;
      if index < CLIENTS {
        if index < 8 {
          if loopback.next == NORMAL || loopback.next == TO_CLIENT || loopback.next == TO_LINE {
            var ignored := SetIfPortRate(regs);
          }
        } else {
          if loopback.next == NORMAL {
            if rate.next == OTU1 || rate.next == STM16 || rate.next == FC2 {
              var ignored := SetIfPortRate(regs);
            }
          } else if loopback.next == TO_CLIENT {
            var ignored := SetIfPortRate(regs);
          }
        }
      }
      ret := Success;
    }

    method CreatePfcModule()
      modifies this`pfc
      ensures Value() == old(Value()).(pfc := true)
    {
      if !pfc {
        pfc := true;
      }
    }

    method DestroyPfcModule()
      modifies this`pfc
      ensures Value() == old(Value()).(pfc := false)
    {
      if pfc {
        pfc := false;
      }
    }

    method SettleServiceState()
      modifies this`service, this`monitor, this`tx
      ensures Value() == SettleService(old(Value()))
    {
      if service.change {
        if service.next == OOS {
          monitor := false;
          tx := tx.(next := 1);
          tx := tx.(change := true);
        } else if service.next == IS {
          monitor := true;
        } else if service.next == MT {
          monitor := false;
        }
        service := service.(current := service.next);
        service := service.(change := false);
      }
    }

    method SettleLoopbackMode(regs: TopLevel)
      modifies this`loopback, this`rate, regs
      ensures (Value(), regs.Value()) == SettleLoopback(old(Value()), old(regs.Value()))
    {
      hide LoopbackSetsRate, SetRate;
      if loopback.change {
        var ret := SetIfPortLoopback(regs);
        if ret == Success {
          loopback := loopback.(current := loopback.next);
          loopback := loopback.(change := false);
        }
      }
    }

    /** The commit of a rate that has been set and read. */
    method CommitRate()
      modifies this`rate, this`pfcCapable, this`fecCapable, this`pfc
      ensures Value() == WithModule(Committed(old(Value())))
    {
      if monitorRate == rate.next {
        rate := rate.(change := false);
        rate := rate.(current := rate.next);
        if monitorRate == STM1 || monitorRate == STM4 || monitorRate == STM16 {
          pfcCapable, fecCapable := true, false;
        } else if monitorRate == OTU1 {
          pfcCapable, fecCapable := true, true;
        } else {
          pfcCapable, fecCapable := false, false;
        }
      }
      if pfcCapable {
        CreatePfcModule();
      } else {
        DestroyPfcModule();
      }
    }

    method SettleRateRequest(regs: TopLevel)
      modifies this, regs
      ensures (Value(), regs.Value()) == SettleRate(old(Value()), old(regs.Value()))
    {
      hide SetRate, ReadRate, Committed, WithModule;
      if rate.change {
        if !multiRate {
          rate := Cancelled(rate);
        } else {
          var ret := SetIfPortRate(regs);
          if ret == Success {
            var rc := ReadIfPortRate(regs);
            if rc == Success {
              CommitRate();
            }
            resetCounters := true;
          }
          rate := rate.(change := false);
        }
      }
    }

    /** Commands the transmitter and reads the pin back. */
    method SettleTxRequest(pin: nat)
      modifies this`tx, this`txPin
      ensures Value() == SettleTx(old(Value()), pin)
    {
      if tx.change {
        txPin := tx.next;
        tx := tx.(current := pin);
        if tx.current == tx.next {
          tx := tx.(change := false);
        }
      }
    }

    /** One interface's turn in the pass. */
    method VisitInterface(regs: TopLevel, pin: nat)
      modifies this, regs
      ensures (Value(), regs.Value()) == Settle(old(Value()), old(regs.Value()), pin)
    {
      hide SettleService, SettleLoopback, SettleRate, SettleTx;
      if resetCounters {
        resetCounters := false;
      }
      SettleServiceState();
      SettleLoopbackMode(regs);
      SettleRateRequest(regs);
      SettleTxRequest(pin);
    }

    /** A user command. `ok` is what the user is told. */
    method UserSet(e: Event) returns (ok: bool)
      requires !e.Visit? && !e.Restore?
      modifies this
      ensures Value() == Request(old(Value()), e)
      ensures e.EnableTx? ==> ok == (!e.absent && old(service).current != OOS)
      ensures e.SetLoopback? ==> ok == !e.absent
      ensures !e.EnableTx? && !e.SetLoopback? && !e.SetDataType? ==> ok
      ensures e.SetDataType? ==> ok == multiRate
    {
      ok := true;
      match e
      case SetState(v) =>
        service := service.(next := v % 4);
        service := service.(change := true);
        service := service.(current := v);
      case EnableTx(v, absent) =>
        if !absent && service.current != OOS {
          tx := tx.(next := if v % 2 == 1 then 0 else 1);
          tx := tx.(change := true);
        } else {
          ok := false;
        }
      case SetLoopback(v, absent) =>
        if !absent {
          loopback := loopback.(next := v % 4);
          loopback := loopback.(change := true);
          loopback := loopback.(current := v);
        } else {
          ok := false;
        }
      case SetDataType(r) =>
        if multiRate {
          rate := rate.(next := r);
          rate := rate.(change := true);
        } else {
          ok := false;
        }
      case ResetCounters =>
        resetCounters := true;
      case WriteTx(v) =>
        tx := tx.(next := v % 2);
        tx := tx.(change := true);
      case WriteRate(v) =>
        rate := rate.(next := v);
        rate := rate.(change := true);
      case WriteLoopback(v) =>
        loopback := loopback.(next := v);
        loopback := loopback.(change := true);
    }

    method BootRate()
      modifies this`rate
      ensures Value() == BootedRate(old(Value()))
    {
      if index < CLIENTS {
        rate := rate.(next := rate.current);
        if rate.next == OTU1 || rate.next == STM16 || rate.next == FC2 {
          rate := rate.(change := false);
        } else {
          rate := rate.(change := true);
        }
      }
    }

    method BootTx()
      modifies this`tx
      ensures Value() == BootedTx(old(Value()))
    {
      if service.next == OOS {
        tx := tx.(next := 1, current := 1);
        tx := tx.(change := true);
      } else {
        tx := tx.(next := tx.current);
        tx := tx.(change := true);
      }
    }

    /** Takes over what is stored for the interface. */
    method Prefer(s: Settings)
      modifies this
      ensures Value() == Preferred(old(Value()), s)
    {
      service := service.(current := s.service);
      rate := rate.(current := s.rate);
      loopback := loopback.(current := s.loopback);
      tx := tx.(current := s.tx);
    }

    /** Start-up from the settings of the user. */
    method Boot()
      modifies this
      ensures Value() == Booted(old(Value()))
    {
      hide BootedRate, BootedTx;
      service := service.(next := service.current, change := true);
      BootRate();
      CreatePfcModule();
      resetCounters := true;
      loopback := loopback.(next := loopback.current, change := true);
      BootTx();
    }

    /** Start-up, with the user's settings if they are found. */
    method StartUp(found: bool, s: Settings)
      requires Value() == Initial(index, mapped)
      modifies this
      ensures Value() == StartedUp(index, mapped, if found then s else Defaults())
    {
      hide Preferred, Booted;
      if found {
        Prefer(s);
      } else {
        DefaultsArePreferred(index, mapped);
      }
      Boot();
    }

    /** The default values, and every request set. */
    method RestoreDefaults()
      modifies this
      ensures Value() == Request(old(Value()), Restore)
    {
      service := service.(current := IS, next := IS);
      monitor := true;
      tx := tx.(current := 0, next := 0);
      loopback := loopback.(current := NORMAL, next := NORMAL);
      rate := rate.(current := STM1, next := STM1);
      service := service.(change := true);
      rate := rate.(change := true);
      tx := tx.(change := true);
      loopback := loopback.(change := true);
      resetCounters := true;
    }
  }

  ghost function Ifaces(s: seq<Interface>): (r: seq<Iface>)
    reads s
    ensures |r| == |s| && forall i :: 0 <= i < |s| ==> r[i] == s[i].Value()
  {
    seq(|s|, i requires 0 <= i < |s| reads s => s[i].Value())
  }

  /** The settings of the user, or what the defaults leave if none are found. */
  function Stored(found: bool, settings: seq<Settings>): seq<Settings> {
    if found then settings else seq(INTERFACES, i => Defaults())
  }

  class InterfaceCard {
    const interfaces: seq<Interface>
    const regs: TopLevel
    ghost var start: Card
    ghost var stored: seq<Settings>
    ghost var events: seq<CardEvent>

    /** The card as initialisation leaves it. */
    constructor (interfaces: seq<Interface>, regs: TopLevel)
      requires |interfaces| == INTERFACES
      requires forall i, j :: 0 <= i < j < |interfaces| ==> interfaces[i] != interfaces[j]
      requires forall i :: 0 <= i < |interfaces| ==> interfaces[i].Value() == Initial(i, interfaces[i].mapped)
      ensures this.interfaces == interfaces && this.regs == regs && Initialized()
    {
      this.interfaces, this.regs := interfaces, regs;
    }

    ghost predicate Distinct() {
      |interfaces| == INTERFACES && forall i, j :: 0 <= i < j < |interfaces| ==> interfaces[i] != interfaces[j]
    }

    ghost predicate Initialized()
      reads interfaces
    {
      Distinct() && forall i :: 0 <= i < |interfaces| ==> interfaces[i].Value() == Initial(i, interfaces[i].mapped)
    }

    ghost function Mapped(): seq<bool> {
      seq(|interfaces|, i requires 0 <= i < |interfaces| => interfaces[i].mapped)
    }

    ghost function Value(): Card
      reads interfaces, regs
    {
      Card(Ifaces(interfaces), regs.Value())
    }

    /** The records and registers are where the events since start-up have brought them. */
    ghost predicate Valid()
      reads this, interfaces, regs
    {
      Distinct() && CardStartedUp(start, Mapped(), stored) && Value() == Run(start, events)
    }

    /** Start-up: the user's settings if they are found, and a request for everything. */
    method BootUp(found: bool, settings: seq<Settings>)
      requires Initialized() && |settings| == INTERFACES
      modifies this, interfaces
      ensures Valid() && events == [] && stored == Stored(found, settings)
    {
      hide StartedUp;
      for i := 0 to INTERFACES
        invariant forall j :: 0 <= j < i ==>
          interfaces[j].Value() == StartedUp(j, interfaces[j].mapped, Stored(found, settings)[j])
        invariant forall j :: i <= j < INTERFACES ==> interfaces[j].Value() == Initial(j, interfaces[j].mapped)
      {
        interfaces[i].StartUp(found, settings[i]);
      }
      StartTrace(Stored(found, settings));
    }

    /** The trace starts once every interface has started up. */
    ghost method StartTrace(settings: seq<Settings>)
      requires Distinct() && |settings| == INTERFACES
      requires forall j :: 0 <= j < INTERFACES ==>
        interfaces[j].Value() == StartedUp(j, interfaces[j].mapped, settings[j])
      modifies this
      ensures Valid() && events == [] && stored == settings
    {
      hide StartedUp, Step;
      start, stored, events := Value(), settings, [];
    }

    /** Adds the event that has just happened to the trace. */
    ghost method Record(c: Card, o: CardEvent)
      requires Distinct() && CardStartedUp(start, Mapped(), stored)
      requires c == Run(start, events) && Value() == Step(c, o)
      modifies this`events
      ensures Valid() && events == old(events) + [o]
    {
      RunOneMore(start, events, o);
      events := events + [o];
    }

    /** The turn of interface `i`. */
    method Visit(i: nat, pin: nat)
      requires Valid() && i < |interfaces|
      modifies this`events, interfaces[i], regs
      ensures Valid() && events == old(events) + [On(i, Event.Visit(pin))]
      ensures Value() == Step(old(Value()), On(i, Event.Visit(pin)))
    {
      hide Settle, Run, CardStartedUp;
      ghost var c := Value();
      interfaces[i].VisitInterface(regs, pin);
      assert Value().ifs == c.ifs[i := interfaces[i].Value()];
      Record(c, On(i, Event.Visit(pin)));
    }

    /** A command of the user, between two visits. */
    method Command(i: nat, e: Event) returns (ok: bool)
      requires Valid() && i < |interfaces| && !e.Visit? && !e.Restore?
      modifies this`events, interfaces[i]
      ensures Valid() && events == old(events) + [On(i, e)]
      ensures Value() == Step(old(Value()), On(i, e))
      ensures e.EnableTx? ==> ok == (!e.absent && old(Value()).ifs[i].service.current != 0)
      ensures e.SetLoopback? ==> ok == !e.absent
      ensures !e.EnableTx? && !e.SetLoopback? && !e.SetDataType? ==> ok
      ensures e.SetDataType? ==> ok == interfaces[i].multiRate
    {
      hide Request, Run, CardStartedUp;
      ghost var c := Value();
      ok := interfaces[i].UserSet(e);
      assert Value().ifs == c.ifs[i := interfaces[i].Value()];
      Record(c, On(i, e));
    }

    /** The restoration of one interface. */
    method RestoreOne(i: nat)
      requires Valid() && i < |interfaces|
      modifies this`events, interfaces[i]
      ensures Valid() && events == old(events) + [On(i, Restore)]
    {
      hide Request, Run, CardStartedUp;
      ghost var c := Value();
      interfaces[i].RestoreDefaults();
      assert Value().ifs == c.ifs[i := interfaces[i].Value()];
      Record(c, On(i, Restore));
    }

    /** The restoration of the default values, interface by interface. */
    method RestoreAll()
      requires Valid()
      modifies this`events, interfaces
      ensures Valid() && events == old(events) + Restores(INTERFACES)
    {
      hide Run, CardStartedUp, Step;
      for i := 0 to INTERFACES
        invariant Valid() && events == old(events) + Restores(i)
      {
        RestoreOne(i);
        assert Restores(i + 1) == Restores(i) + [On(i, Restore)];
      }
    }

    /** The pass over all interfaces, without a command in between. What the pins read is up to the
        transceivers. */
    method Task10() returns (ghost readBacks: seq<nat>)
      requires Valid()
      modifies this`events, interfaces, regs
      ensures Valid() && |readBacks| == INTERFACES && events == old(events) + Visits(readBacks)
      ensures Value() == Run(old(Value()), Visits(readBacks))
      ensures forall i :: 0 <= i < INTERFACES ==> Settled(old(Value()).ifs[i], Value().ifs[i])
    {
      hide Step, Settled, CardStartedUp;
      ghost var c := Value();
      IsPlaced();
      readBacks := [];
      assert Visits([]) == [];
      for i := 0 to INTERFACES
        invariant Valid() && |readBacks| == i
        invariant events == old(events) + Visits(readBacks) && Value() == Run(c, Visits(readBacks))
      {
        var pin: nat := *;
        VisitsOfOneMore(readBacks, pin);
        RunOneMore(c, Visits(readBacks), On(i, Event.Visit(pin)));
        Visit(i, pin);
        readBacks := readBacks + [pin];
      }
      PassSettles(c, readBacks);
    }

    lemma IsPlaced()
      requires Valid()
      ensures Placed(Value())
    {
      hide Run, StartedUp, Formed;
      StartUpIsPlaced(start, Mapped(), stored);
      RunKeepsPlaced(start, events);
    }

    /** However the card has been called since start-up, an interface has a counter module exactly with
        the capability. */
    lemma HasModule(k: nat)
      requires Valid() && k < INTERFACES
      ensures ModuleAsCapable(Value().ifs[k])
    {
      hide CardStartedUp, Run, ModuleAsCapable;
      ReachableHasModule(start, Mapped(), stored, events, k);
    }

    /** It is safe exactly if nothing harmful has come since start-up, or since something has switched
        its transmitter off or asked for another state. */
    lemma IsSafe(k: nat)
      requires Valid() && k < INTERFACES
      ensures SafeOut(Value().ifs[k]) <==> HarmlessFrom(start, events, k, 0) || TurnedOff(start, events, k)
    {
      hide CardStartedUp, Run, SafeOut, HarmlessFrom, TurnedOff;
      ReachableIsSafe(start, Mapped(), stored, events, k);
    }

    /** And monitoring and state agree exactly if the stored state was one of the three or something
        since has put them in order. */
    lemma IsMonitored(k: nat)
      requires Valid() && k < INTERFACES && MeantFor(events, k)
      ensures InOrder(Value().ifs[k]) <==> IsState(stored[k].service) || SetInOrder(start, events, k)
    {
      hide Run, InOrder, SetInOrder;
      ReachableIsMonitored(start, Mapped(), stored, events, k);
    }

    /** And the record of a client agrees with the registers exactly if it is not mapped, its rate was
        requested at start-up or in the registers, or something since has seen to it. */
    lemma IsInAgreement(k: nat)
      requires Valid() && k < CLIENTS
      ensures Agrees(Value().ifs[k], regs.Value()) <==>
        || !interfaces[k].mapped || stored[k].rate !in {15, 11, 14} || Reflects(ViewOf(start.regs, k), stored[k].rate)
        || SetInAgreement(start, events, k)
    {
      hide Run, Agrees, SetInAgreement, ViewOf, Reflects;
      ReachableAgrees(start, Mapped(), stored, events, k);
    }
  }
}

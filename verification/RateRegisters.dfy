/** The packed registers that select the rates of the 16 clients: eight lanes of four bits to a
    register.
 */
module RateRegisters {

  // Rates and protocols of a port.
  const FE := 1
  const GE := 2
  const STM1 := 9
  const STM4 := 10
  const STM16 := 11
  const FC1 := 13
  const FC2 := 14
  const OTU1 := 15
  const OTU2 := 16

  const ETHERNET := 1
  const OTU := 2
  const SDH := 4
  const FIBER_CHANNEL := 5

  const CLIENTS := 16

  // ----- Bit fields as digits ------------------------------------------------------------------

  /** A register is a row of equal fields: of single bits, or of lanes of four bits. */
  datatype Width = One | Four

  function Low(w: nat, b: Width): nat {
    if b.One? then w % 2 else w % 16
  }

  function High(w: nat, b: Width): nat {
    if b.One? then w / 2 else w / 16
  }

  function Join(high: nat, low: nat, b: Width): nat {
    if b.One? then 2 * high + low else 16 * high + low
  }

  lemma JoinSplits(high: nat, v: nat, b: Width)
    ensures High(Join(high, Low(v, b), b), b) == high && Low(Join(high, Low(v, b), b), b) == Low(v, b)
    ensures Join(High(v, b), Low(v, b), b) == v
  {
  }

  /** The field at position `k`. */
  function Digit(w: nat, b: Width, k: nat): nat {
    if k == 0 then Low(w, b) else Digit(High(w, b), b, k - 1)
  }

  /** What the field at position `k` counts for. */
  function Weight(b: Width, k: nat): (w: nat)
    ensures w > 0
  {
    if k == 0 then 1 else if b.One? then 2 * Weight(b, k - 1) else 16 * Weight(b, k - 1)
  }

  lemma DivideTwice(a: nat, b: Width, c: nat)
    requires c > 0
    ensures High(a, b) / c == a / (if b.One? then 2 * c else 16 * c)
  {
    var h := High(a, b);
    var q, s := h / c, h % c;
    assert h == q * c + s;
    if b.One? {
      Quotient(a, 2 * c, q, 2 * s + a % 2);
    } else {
      Quotient(a, 16 * c, q, 16 * s + a % 16);
    }
  }

  lemma Quotient(a: nat, d: nat, q: nat, rest: nat)
    requires d > 0 && a == q * d + rest && rest < d
    ensures a / d == q
  {
    var x := a / d - q;
    assert a == (a / d) * d + a % d;
    assert x * d == rest - a % d;
    assert x >= 1 ==> x * d >= d;
    assert x <= -1 ==> x * d + d <= 0;
  }

  /** A field is the quotient by its weight, cut to its width. */
  lemma {:induction false} DigitIsQuotient(w: nat, b: Width, k: nat)
    ensures Digit(w, b, k) == (w / Weight(b, k)) % (if b.One? then 2 else 16)
  {
    if k == 0 {
    } else {
      DigitIsQuotient(High(w, b), b, k - 1);
      DivideTwice(w, b, Weight(b, k - 1));
    }
  }

  /** Assignment to a field. The value is cut to the width of the field. */
  function WithDigit(w: nat, b: Width, k: nat, v: nat): nat {
    if k == 0 then Join(High(w, b), Low(v, b), b) else Join(WithDigit(High(w, b), b, k - 1, v), Low(w, b), b)
  }

  lemma {:induction false} DigitStored(w: nat, b: Width, k: nat, v: nat)
    ensures Digit(WithDigit(w, b, k, v), b, k) == Low(v, b)
  {
    if k == 0 {
      JoinSplits(High(w, b), v, b);
    } else {
      JoinSplits(WithDigit(High(w, b), b, k - 1, v), w, b);
      DigitStored(High(w, b), b, k - 1, v);
    }
  }

  /** Assigning one field leaves every other one. */
  lemma {:induction false} DigitOther(w: nat, b: Width, k: nat, v: nat, j: nat)
    requires j != k
    ensures Digit(WithDigit(w, b, k, v), b, j) == Digit(w, b, j)
  {
    if k == 0 {
      JoinSplits(High(w, b), v, b);
    } else {
      JoinSplits(WithDigit(High(w, b), b, k - 1, v), w, b);
      if j > 0 {
        DigitOther(High(w, b), b, k - 1, v, j - 1);
      }
    }
  }

  /** The register has `n` fields and no bits beyond them. */
  predicate Fits(w: nat, b: Width, n: nat) {
    if n == 0 then w == 0 else Fits(High(w, b), b, n - 1)
  }

  lemma {:induction false} StillFits(w: nat, b: Width, n: nat, k: nat, v: nat)
    requires k < n && Fits(w, b, n)
    ensures Fits(WithDigit(w, b, k, v), b, n)
  {
    if k == 0 {
      JoinSplits(High(w, b), v, b);
    } else {
      JoinSplits(WithDigit(High(w, b), b, k - 1, v), w, b);
      StillFits(High(w, b), b, n - 1, k - 1, v);
    }
  }

  // The bit fields of a lane: three bits of rate select, then the reconfigure bit.

  function Select(w: nat, k: nat): nat {
    Digit(w, Four, k) % 8
  }

  function Reconfigure(w: nat, k: nat): nat {
    Digit(w, Four, k) / 8
  }

  function WithSelect(w: nat, k: nat, v: nat): nat {
    WithDigit(w, Four, k, 8 * Reconfigure(w, k) + v % 8)
  }

  function WithReconfigure(w: nat, k: nat, v: nat): nat {
    WithDigit(w, Four, k, 8 * (v % 2) + Select(w, k))
  }

  lemma SelectStored(w: nat, k: nat, v: nat)
    ensures Select(WithSelect(w, k, v), k) == v % 8 && Reconfigure(WithSelect(w, k, v), k) == Reconfigure(w, k)
    ensures forall j :: 0 <= j && j != k ==> Digit(WithSelect(w, k, v), Four, j) == Digit(w, Four, j)
  {
    var x := 8 * Reconfigure(w, k) + v % 8;
    DigitInRange(w, k);
    DigitStored(w, Four, k, x);
    forall j | 0 <= j && j != k
      ensures Digit(WithSelect(w, k, v), Four, j) == Digit(w, Four, j)
    {
      DigitOther(w, Four, k, x, j);
    }
  }

  lemma ReconfigureStored(w: nat, k: nat, v: nat)
    ensures Reconfigure(WithReconfigure(w, k, v), k) == v % 2 && Select(WithReconfigure(w, k, v), k) == Select(w, k)
    ensures forall j :: 0 <= j && j != k ==> Digit(WithReconfigure(w, k, v), Four, j) == Digit(w, Four, j)
  {
    var x := 8 * (v % 2) + Select(w, k);
    DigitStored(w, Four, k, x);
    forall j | 0 <= j && j != k
      ensures Digit(WithReconfigure(w, k, v), Four, j) == Digit(w, Four, j)
    {
      DigitOther(w, Four, k, x, j);
    }
  }

  lemma {:induction false} DigitInRange(w: nat, k: nat)
    ensures Digit(w, Four, k) < 16
  {
    if k == 0 {
    } else {
      DigitInRange(High(w, Four), k - 1);
    }
  }

  // ----- The registers of all clients ----------------------------------------------------------

  /** Clients 0 to 7 are in the first register of each kind, clients 8 to 15 in the second. */
  datatype Regs = Regs(config1: nat, config2: nat, sdh1: nat, sdh2: nat, odtu1: nat, odtu2: nat)

  /** What the registers say about one client. */
  datatype View = View(select: nat, reconfigure: nat, sdh: nat, odtu: nat)

  function ViewOf(r: Regs, k: nat): View
    requires k < CLIENTS
  {
    var lane := k % 8;
    var (config, sdh, odtu) := if k < 8 then (r.config1, r.sdh1, r.odtu1) else (r.config2, r.sdh2, r.odtu2);
    View(Select(config, lane), Reconfigure(config, lane), Digit(sdh, One, lane), Digit(odtu, Four, lane))
  }

  /** Where the fields of a client are: four bits to a client in the configuration and ODTU registers, the
      low three of them the select code and the fourth the reconfigure bit, and one bit in the SDH register. */
  lemma FieldPositions(r: Regs, k: nat)
    requires k < CLIENTS
    ensures var v := ViewOf(r, k);
      var nibble := [0x1, 0x10, 0x100, 0x1000, 0x1_0000, 0x10_0000, 0x100_0000, 0x1000_0000][k % 8];
      var bit := [1, 2, 4, 8, 16, 32, 64, 128][k % 8];
      && v.select == ((if k < 8 then r.config1 else r.config2) / nibble) % 16 % 8
      && v.reconfigure == ((if k < 8 then r.config1 else r.config2) / nibble) % 16 / 8
      && v.odtu == ((if k < 8 then r.odtu1 else r.odtu2) / nibble) % 16
      && v.sdh == ((if k < 8 then r.sdh1 else r.sdh2) / bit) % 2
  {
    hide Digit, Weight;
    var (config, sdh, odtu) := if k < 8 then (r.config1, r.sdh1, r.odtu1) else (r.config2, r.sdh2, r.odtu2);
    Weights(k % 8);
    DigitIsQuotient(config, Four, k % 8);
    DigitIsQuotient(odtu, Four, k % 8);
    DigitIsQuotient(sdh, One, k % 8);
  }

  lemma Weights(k: nat)
    requires k < 8
    ensures Weight(Four, k) == [0x1, 0x10, 0x100, 0x1000, 0x1_0000, 0x10_0000, 0x100_0000, 0x1000_0000][k]
    ensures Weight(One, k) == [1, 2, 4, 8, 16, 32, 64, 128][k]
  {
    assert forall b, n :: 0 < n < 8 ==> Weight(b, n) == (if b.One? then 2 else 16) * Weight(b, n - 1);
    assert forall b :: Weight(b, 0) == 1;
  }

  /** The select code of a rate. STM1 and STM4 share one, and so does everything unknown. */
  function Code(rate: nat): nat {
    if rate == FC1 then 4
    else if rate == FC2 then 5
    else if rate == OTU1 then 3
    else if rate == STM16 then 2
    else if rate == FE || rate == GE then 0
    else 1
  }

  /** The select code written to lane `k` of a configuration register, and the reconfigure bit pulsed. */
  function Pulsed(w: nat, k: nat, code: nat): nat {
    WithReconfigure(WithReconfigure(WithReconfigure(WithSelect(w, k, code), k, 0), k, 1), k, 0)
  }

  function SdhSet(w: nat, k: nat, rate: nat): nat {
    if rate == STM1 then WithDigit(w, One, k, 0)
    else if rate == STM4 then WithDigit(w, One, k, 1)
    else w
  }

  /** The registers after rate `rate` has been set for client `k`. */
  function Written(r: Regs, k: nat, rate: nat): Regs
    requires k < CLIENTS
  {
    var lane := k % 8;
    if k < 8 then
      r.(config1 := Pulsed(r.config1, lane, Code(rate)), sdh1 := SdhSet(r.sdh1, lane, rate),
         odtu1 := WithDigit(r.odtu1, Four, lane, rate))
    else
      r.(config2 := Pulsed(r.config2, lane, Code(rate)), sdh2 := SdhSet(r.sdh2, lane, rate),
         odtu2 := WithDigit(r.odtu2, Four, lane, rate))
  }

  lemma PulsedLane(w: nat, k: nat, code: nat)
    requires code < 8
    ensures Select(Pulsed(w, k, code), k) == code && Reconfigure(Pulsed(w, k, code), k) == 0
    ensures forall j :: 0 <= j && j != k ==> Digit(Pulsed(w, k, code), Four, j) == Digit(w, Four, j)
  {
    hide *;
    var w1 := WithSelect(w, k, code);
    var w2 := WithReconfigure(w1, k, 0);
    var w3 := WithReconfigure(w2, k, 1);
    PulsedIs(w, k, code);
    SelectStored(w, k, code);
    ReconfigureStored(w1, k, 0);
    ReconfigureStored(w2, k, 1);
    ReconfigureStored(w3, k, 0);
  }

  lemma PulsedIs(w: nat, k: nat, code: nat)
    ensures Pulsed(w, k, code) ==
      WithReconfigure(WithReconfigure(WithReconfigure(WithSelect(w, k, code), k, 0), k, 1), k, 0)
  {
  }

  lemma SdhStored(w: nat, k: nat, rate: nat)
    ensures Digit(SdhSet(w, k, rate), One, k) ==
      if rate == STM1 then 0 else if rate == STM4 then 1 else Digit(w, One, k)
    ensures forall j :: 0 <= j && j != k ==> Digit(SdhSet(w, k, rate), One, j) == Digit(w, One, j)
  {
    DigitStored(w, One, k, 0);
    DigitStored(w, One, k, 1);
    forall j | 0 <= j && j != k
      ensures Digit(SdhSet(w, k, rate), One, j) == Digit(w, One, j)
    {
      DigitOther(w, One, k, 0, j);
      DigitOther(w, One, k, 1, j);
    }
  }

  /** What setting a rate leaves at a client: the code and the reconfigure bit at rest, the bit that
      tells STM4 from STM1, and the low four bits of the rate itself. */
  function NewView(v: View, rate: nat): View {
    View(Code(rate), 0, if rate == STM1 then 0 else if rate == STM4 then 1 else v.sdh, rate % 16)
  }

  /** Setting the rate of one client leaves the fields of every other client alone. */
  lemma WritesOneClient(r: Regs, k: nat, rate: nat, j: nat)
    requires k < CLIENTS && j < CLIENTS
    ensures ViewOf(Written(r, k, rate), j) == if j == k then NewView(ViewOf(r, k), rate) else ViewOf(r, j)
  {
    hide Pulsed, SdhSet, Digit, WithDigit;
    var lane := k % 8;
    var (config, sdh, odtu) := if k < 8 then (r.config1, r.sdh1, r.odtu1) else (r.config2, r.sdh2, r.odtu2);
    PulsedLane(config, lane, Code(rate));
    SdhStored(sdh, lane, rate);
    DigitStored(odtu, Four, lane, rate);
    if j % 8 != lane {
      DigitOther(odtu, Four, lane, rate, j % 8);
    }
  }

  /** The registers hold other controls as well, above the eight bits for STM4. */
  lemma WritesNothingElse(r: Regs, k: nat, rate: nat, j: nat)
    requires k < CLIENTS && j >= 8
    ensures Digit(Written(r, k, rate).sdh1, One, j) == Digit(r.sdh1, One, j)
    ensures Digit(Written(r, k, rate).sdh2, One, j) == Digit(r.sdh2, One, j)
  {
    SdhStored(if k < 8 then r.sdh1 else r.sdh2, k % 8, rate);
  }

  /** Every register has 32 bits. */
  ghost predicate Sized(r: Regs) {
    && Fits(r.config1, Four, 8) && Fits(r.config2, Four, 8)
    && Fits(r.sdh1, One, 32) && Fits(r.sdh2, One, 32)
    && Fits(r.odtu1, Four, 8) && Fits(r.odtu2, Four, 8)
  }

  lemma WritesStaySized(r: Regs, k: nat, rate: nat)
    requires k < CLIENTS && Sized(r)
    ensures Sized(Written(r, k, rate))
  {
    hide Fits, WithDigit, Select, Reconfigure;
    var lane := k % 8;
    var (config, sdh, odtu) := if k < 8 then (r.config1, r.sdh1, r.odtu1) else (r.config2, r.sdh2, r.odtu2);
    PulsedFits(config, lane, Code(rate));
    StillFits(sdh, One, 32, lane, 0);
    StillFits(sdh, One, 32, lane, 1);
    StillFits(odtu, Four, 8, lane, rate);
  }

  lemma PulsedFits(w: nat, k: nat, code: nat)
    requires k < 8 && Fits(w, Four, 8)
    ensures Fits(Pulsed(w, k, code), Four, 8)
  {
    hide Fits, WithDigit, Select, Reconfigure;
    var w1 := WithSelect(w, k, code);
    var w2 := WithReconfigure(w1, k, 0);
    var w3 := WithReconfigure(w2, k, 1);
    StillFits(w, Four, 8, k, 8 * Reconfigure(w, k) + code % 8);
    StillFits(w1, Four, 8, k, 8 * (0 % 2) + Select(w1, k));
    StillFits(w2, Four, 8, k, 8 * (1 % 2) + Select(w2, k));
    StillFits(w3, Four, 8, k, 8 * (0 % 2) + Select(w3, k));
  }

  datatype Change = Change(client: nat, rate: nat)

  predicate ForClients(cs: seq<Change>) {
    forall i :: 0 <= i < |cs| ==> cs[i].client < CLIENTS
  }

  function WrittenAll(r: Regs, cs: seq<Change>): Regs
    requires ForClients(cs)
  {
    if cs == [] then r else Written(WrittenAll(r, cs[..|cs| - 1]), cs[|cs| - 1].client, cs[|cs| - 1].rate)
  }

  /** The rates that are set for client `k`, in order. */
  function RatesFor(cs: seq<Change>, k: nat): seq<nat> {
    if cs == [] then [] else
      RatesFor(cs[..|cs| - 1], k) + if cs[|cs| - 1].client == k then [cs[|cs| - 1].rate] else []
  }

  /** The bit for STM4 after the rates `rates`. */
  function SdhAfter(sdh: nat, rates: seq<nat>): nat {
    if rates == [] then sdh else
      var last := rates[|rates| - 1];
      if last == STM1 then 0 else if last == STM4 then 1 else SdhAfter(sdh, rates[..|rates| - 1])
  }

  /** However the rates of the clients are changed: the fields of each client hold what belongs to
      the last rate set for it, as if no other client existed. */
  lemma {:induction false} HoldsLastRate(r: Regs, cs: seq<Change>, k: nat)
    requires k < CLIENTS && ForClients(cs)
    ensures var rates, v := RatesFor(cs, k), ViewOf(r, k);
      ViewOf(WrittenAll(r, cs), k) ==
        if rates == [] then v
        else View(Code(rates[|rates| - 1]), 0, SdhAfter(v.sdh, rates), rates[|rates| - 1] % 16)
  {
    if cs == [] {
    } else {
      hide ViewOf, Written, Code;
      var before, c := cs[..|cs| - 1], cs[|cs| - 1];
      HoldsLastRate(r, before, k);
      WritesOneClient(WrittenAll(r, before), c.client, c.rate, k);
      if c.client == k {
        assert RatesFor(cs, k) == RatesFor(before, k) + [c.rate];
        assert RatesFor(cs, k)[..|RatesFor(cs, k)| - 1] == RatesFor(before, k);
      } else {
        assert RatesFor(cs, k) == RatesFor(before, k);
      }
    }
  }

  // ----- Reading back --------------------------------------------------------------------------

  datatype Reading = Reading(rate: nat, prot: nat) | BadParams | Failed

  /** What a select code is read as. For code 0 the request decides, and code 8 does not fit the
      field. */
  function Decoded(code: nat, next: nat): Reading {
    match code
    case 0 => if next == FE then Reading(FE, ETHERNET) else if next == GE then Reading(GE, ETHERNET) else BadParams
    case 1 => Reading(STM1, SDH)
    case 2 => Reading(STM16, SDH)
    case 3 => Reading(OTU1, OTU)
    case 4 => Reading(FC1, FIBER_CHANNEL)
    case 5 => Reading(FC2, FIBER_CHANNEL)
    case 8 => Reading(STM4, SDH)
    case _ => Failed
  }

  function ProtocolOf(rate: nat): nat {
    if rate == FE || rate == GE then ETHERNET
    else if rate == OTU1 then OTU
    else if rate == FC1 || rate == FC2 then FIBER_CHANNEL
    else SDH
  }

  predicate ReadsBack(rate: nat) {
    rate == FE || rate == GE || rate == STM1 || rate == STM16 || rate == OTU1 || rate == FC1 || rate == FC2
  }

  /** With the request unchanged, reading back returns the rate that was set exactly for seven rates;
      STM4 and everything else comes back as STM1. */
  lemma ReadBack(r: Regs, k: nat, rate: nat)
    requires k < CLIENTS
    ensures var got := Decoded(ViewOf(Written(r, k, rate), k).select, rate);
      && got.Reading?
      && ViewOf(Written(r, k, rate), k).select ==
        (match rate case 1 => 0 case 2 => 0 case 11 => 2 case 15 => 3 case 13 => 4 case 14 => 5 case _ => 1)
      && (got.rate == rate <==> rate in {1, 2, 9, 11, 13, 14, 15}) && (got.rate == rate <==> ReadsBack(rate))
      && (ReadsBack(rate) ==> got.prot == ProtocolOf(rate))
      && (ReadsBack(rate) ==>
           got.prot == if rate <= 2 then 1 else if rate == 15 then 2 else if rate == 13 || rate == 14 then 5 else 4)
      && (!ReadsBack(rate) ==> got == Reading(STM1, SDH))
  {
    WritesOneClient(r, k, rate, k);
  }

  /** Only the bit beside the select code tells STM4 from STM1 within the configuration registers. */
  lemma Stm4LooksLikeStm1(r: Regs, k: nat)
    requires k < CLIENTS
    ensures ViewOf(Written(r, k, STM4), k).select == ViewOf(Written(r, k, STM1), k).select
    ensures ViewOf(Written(r, k, STM4), k).sdh == 1 && ViewOf(Written(r, k, STM1), k).sdh == 0
  {
    WritesOneClient(r, k, STM4, k);
    WritesOneClient(r, k, STM1, k);
  }

  // ----- The registers themselves --------------------------------------------------------------

  class TopLevel {
    var config1: nat
    var config2: nat
    var sdh1: nat
    var sdh2: nat
    var odtu1: nat
    var odtu2: nat

    constructor (r: Regs)
      ensures Value() == r
    {
      config1, config2, sdh1, sdh2, odtu1, odtu2 := r.config1, r.config2, r.sdh1, r.sdh2, r.odtu1, r.odtu2;
    }

    ghost function Value(): Regs
      reads this
    {
      Regs(config1, config2, sdh1, sdh2, odtu1, odtu2)
    }

    method Write(k: nat, rate: nat)
      requires k < CLIENTS
      modifies this
      ensures Value() == Written(old(Value()), k, rate)
      ensures ViewOf(Value(), k) == NewView(ViewOf(old(Value()), k), rate)
      ensures forall j :: 0 <= j < CLIENTS && j != k ==> ViewOf(Value(), j) == ViewOf(old(Value()), j)
    {
      hide Select, Reconfigure, Digit, WithDigit, WithSelect, WithReconfigure, ViewOf, NewView, Code;
      ghost var r := Value();
      var code, lane := Code(rate), k % 8;
      if k < 8 {
        config1 := WithSelect(config1, lane, code);
        config1 := WithReconfigure(config1, lane, 0);
        config1 := WithReconfigure(config1, lane, 1);
        config1 := WithReconfigure(config1, lane, 0);
        odtu1 := WithDigit(odtu1, Four, lane, rate);
        if rate == STM1 {
          sdh1 := WithDigit(sdh1, One, lane, 0);
        }
        if rate == STM4 {
          sdh1 := WithDigit(sdh1, One, lane, 1);
        }
      } else {
        config2 := WithSelect(config2, lane, code);
        config2 := WithReconfigure(config2, lane, 0);
        config2 := WithReconfigure(config2, lane, 1);
        config2 := WithReconfigure(config2, lane, 0);
        odtu2 := WithDigit(odtu2, Four, lane, rate);
        if rate == STM1 {
          sdh2 := WithDigit(sdh2, One, lane, 0);
        }
        if rate == STM4 {
          sdh2 := WithDigit(sdh2, One, lane, 1);
        }
      }
      forall j | 0 <= j < CLIENTS
        ensures ViewOf(Value(), j) == if j == k then NewView(ViewOf(r, k), rate) else ViewOf(r, j)
      {
        WritesOneClient(r, k, rate, j);
      }
    }

    method ReadSelect(k: nat) returns (code: nat)
      requires k < CLIENTS
      ensures code == ViewOf(Value(), k).select
    {
      code := if k < 8 then Select(config1, k) else Select(config2, k - 8);
    }
  }
}

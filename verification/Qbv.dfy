/** Start times of gate control lists, in the driver's wrapping 32-bit and 64-bit arithmetic: the parts
    of SetCycleStartTime() and SetConfigChangeTime(), sections 8.6.9.1.1 and 8.6.9.3.1 of
    IEEE Std 802.1Q-2018, that the switch leaves to software. */
module Qbv {
  import opened Wrappers

  const TWO32 := 0x1_0000_0000
  const TWO64 := 0x1_0000_0000_0000_0000
  const NS_PER_SEC := 1_000_000_000

  type U32 = x: int | 0 <= x < TWO32
  type U64 = x: int | 0 <= x < TWO64

  function Wrap(x: int): U64 {
    x % TWO64
  }

  /** The time that a seconds register and a nanoseconds register give. */
  function Time(h: U32, l: U32): (t: U64)
    ensures t < TWO64 / 4
  {
    Wrap(Wrap(h * NS_PER_SEC) + l)
  }

  /** Which is not cut short: every reading is below 2^62. */
  lemma TimeIs(h: U32, l: U32)
    ensures Time(h, l) == h * 1_000_000_000 + l
  {
  }

  /** The cycle, counted from the base in 64 bits, that `now` is in. */
  function Step(now: U64, base: U64, cycle: U32): nat
    requires cycle != 0
  {
    Wrap(now - base) / cycle
  }

  /** The time n steps later. */
  function Later(now: U64, base: U64, cycle: U32, n: nat): U64
    requires cycle != 0
  {
    var nextStep := Wrap(Step(now, base, cycle) + n);
    Wrap(base + Wrap(nextStep * cycle))
  }

  /** 10*admin_cycle_time is a product of 32-bit values. */
  function Lead(cycle: U32): U32 {
    (10 * cycle) % TWO32
  }

  /** Whether ax_irq_config_change takes the base time as it is. */
  predicate FarAhead(now: U64, base: U64, cycle: U32) {
    base >= Wrap(now + Lead(cycle))
  }

  /** The time computed by ax_irq_config_change; it divides by the cycle only when the base time is not
      far ahead. */
  function ConfigChangeTime(now: U64, base: U64, cycle: U32): U64
    requires FarAhead(now, base, cycle) || cycle != 0
  {
    if FarAhead(now, base, cycle) then base else Later(now, base, cycle, 10)
  }

  /** get_cycle_start_time */
  function CycleStartTime(now: U64, base: U64, cycle: U32): U64
    requires base >= now || cycle != 0
  {
    if base >= now then base else Later(now, base, cycle, 2)
  }

  // ----- arithmetic -----

  lemma WrapShift(a: int, k: int)
    ensures Wrap(a + TWO64 * k) == Wrap(a)
  {
  }

  lemma WrapAdd(a: int, b: int)
    ensures Wrap(a + Wrap(b)) == Wrap(a + b)
  {
    WrapShift(a + Wrap(b), b / TWO64);
  }

  lemma WrapDiff(a: U64, b: U64)
    ensures Wrap(a - b) == if b > a then a - b + TWO64 else a - b
  {
  }

  lemma MulDistributes(a: int, b: int, c: int)
    ensures (a + b) * c == a * c + b * c
  {
  }

  /** Wrapping the factor first does not change the wrapped product. */
  lemma WrapMul(x: int, c: int)
    ensures Wrap(Wrap(x) * c) == Wrap(x * c)
  {
    var k := x / TWO64;
    MulDistributes(Wrap(x), TWO64 * k, c);
    assert x * c == Wrap(x) * c + TWO64 * (k * c);
    WrapShift(Wrap(x) * c, k * c);
  }

  lemma MulMonotone(a: int, b: int, c: int)
    requires 0 <= c && a <= b
    ensures a * c <= b * c
  {
    MulDistributes(a, b - a, c);
  }

  /** n steps of the cycle past the step that a time d after some origin is in. */
  lemma StepsAfter(d: nat, c: int, n: nat)
    requires 0 < c
    ensures d + (n - 1) * c < (d / c + n) * c <= d + n * c
  {
    MulDistributes(d / c, n, c);
    MulDistributes(n - 1, 1, c);
    assert (d / c) * c + d % c == d;
  }

  function Nth(base: int, k: int, cycle: int): int {
    base + k * cycle
  }

  /** t is a whole number of cycles from the base. */
  ghost predicate OnGrid(t: int, base: int, cycle: int) {
    exists k :: t == Nth(base, k, cycle)
  }

  lemma LaterWraps(base: int, x: int, c: int, k: int)
    ensures Wrap(base + Wrap(Wrap(x) * c)) == Wrap(base + x * c - TWO64 * k)
  {
    hide Wrap;
    WrapMul(x, c);
    WrapAdd(base, x * c);
    WrapShift(base + x * c - TWO64 * k, k);
  }

  /** n cycles past the step that `now` is in, in 64 bits: between n - 1 and n cycles from now. */
  lemma LaterIs(now: U64, base: U64, cycle: U32, n: nat)
    requires 0 < cycle
    ensures var wraps := if base > now then TWO64 else 0;
      var exact := Nth(base, Step(now, base, cycle) + n, cycle) - wraps;
      && now + (n - 1) * cycle < exact <= now + n * cycle
      && Later(now, base, cycle, n) == Wrap(exact)
  {
    hide Wrap;
    var d, x := Wrap(now - base), Step(now, base, cycle) + n;
    WrapDiff(now, base);
    StepsAfter(d, cycle, n);
    LaterWraps(base, x, cycle, if base > now then 1 else 0);
  }

  lemma NoWrap(h: U32, l: U32, x: int)
    requires 0 <= x <= Time(h, l) + 10 * TWO32
    ensures Wrap(x) == x
  {
  }

  lemma OnGridIff(r: int, base: int, cycle: int, q: int, w: int)
    requires r == base + q * cycle - w
    ensures OnGrid(r, base, cycle) <==> OnGrid(w, 0, cycle)
  {
    if OnGrid(w, 0, cycle) {
      var m :| w == Nth(0, m, cycle);
      MulDistributes(q, -m, cycle);
      assert r == Nth(base, q - m, cycle);
    }
    if OnGrid(r, base, cycle) {
      var k :| r == Nth(base, k, cycle);
      MulDistributes(q, -k, cycle);
      assert w == Nth(0, q - k, cycle);
    }
  }

  // ----- what is scheduled -----

  lemma FarAheadIff(h: U32, l: U32, base: U64, cycle: U32)
    ensures FarAhead(Time(h, l), base, cycle) <==> base >= Time(h, l) + Lead(cycle)
  {
  }

  lemma LaterExact(h: U32, l: U32, base: U64, cycle: U32, n: nat)
    requires 0 < cycle && 1 <= n <= 10
    ensures var now := Time(h, l);
      && Later(now, base, cycle, n) == Nth(base, Step(now, base, cycle) + n, cycle) - (if base > now then TWO64 else 0)
      && now + (n - 1) * cycle < Later(now, base, cycle, n) <= now + n * cycle
  {
    var now := Time(h, l);
    hide Time, Later, Step, Nth;
    LaterIs(now, base, cycle, n);
    MulMonotone(n, 10, cycle);
    MulMonotone(0, n - 1, cycle);
    NoWrap(h, l, Nth(base, Step(now, base, cycle) + n, cycle) - (if base > now then TWO64 else 0));
  }

  /** The product of ten cycles loses multiples of 2^32, the first of them above 429496729 ns. */
  lemma LeadIs(cycle: U32)
    ensures cycle <= 429_496_729 ==> Lead(cycle) == 10 * cycle
    ensures cycle > 429_496_729 ==> Lead(cycle) <= 10 * cycle - 0x1_0000_0000
    ensures (10 * cycle - Lead(cycle)) % 0x1_0000_0000 == 0
  {
  }

  /** A configuration change is scheduled at its base time if that is far ahead, and otherwise more than
      9 and at most 10 cycles from now, even if the base is in the near future and the difference to it
      wraps around. */
  lemma ConfigChangeBounds(h: U32, l: U32, base: U64, cycle: U32)
    requires FarAhead(Time(h, l), base, cycle) || cycle != 0
    ensures var now, t := Time(h, l), ConfigChangeTime(Time(h, l), base, cycle);
      if base >= now + Lead(cycle) then t == base else now + 9 * cycle < t <= now + 10 * cycle
  {
    hide Time, Later, Step, Nth, FarAhead, Lead;
    FarAheadIff(h, l, base, cycle);
    if !FarAhead(Time(h, l), base, cycle) {
      LaterExact(h, l, base, cycle, 10);
    }
  }

  /** So the margin of 9 cycles is kept unless the 32-bit product wraps around and the base falls
      between the wrapped and the true margin. */
  lemma MarginKeptIff(h: U32, l: U32, base: U64, cycle: U32)
    requires 0 < cycle
    ensures var now, t := Time(h, l), ConfigChangeTime(Time(h, l), base, cycle);
      t > now + 9 * cycle <==> !(now + Lead(cycle) <= base <= now + 9 * cycle)
    ensures cycle <= TWO32 / 10 ==> ConfigChangeTime(Time(h, l), base, cycle) > Time(h, l) + 9 * cycle
  {
    ConfigChangeBounds(h, l, base, cycle);
  }

  /** A cycle of 0.5 s and a base 1 s ahead: the change is scheduled 2 cycles from now. */
  lemma MarginLost()
    ensures ConfigChangeTime(0, 1_000_000_000, 500_000_000) == 1_000_000_000
  {
  }

  /** The scheduled time is a whole number of cycles from the base, unless the difference wraps around
      and the cycle does not divide 2^64. */
  lemma ConfigChangeOnGridIff(h: U32, l: U32, base: U64, cycle: U32)
    requires 0 < cycle
    ensures OnGrid(ConfigChangeTime(Time(h, l), base, cycle), base, cycle) <==>
      !(Time(h, l) < base < Time(h, l) + Lead(cycle)) || OnGrid(TWO64, 0, cycle)
  {
    var now := Time(h, l);
    assert 0 == Nth(0, 0, cycle) && base == Nth(base, 0, cycle);
    FarAheadIff(h, l, base, cycle);
    hide Time, Later, FarAhead, Lead, Step;
    if !FarAhead(now, base, cycle) {
      LaterExact(h, l, base, cycle, 10);
      OnGridIff(ConfigChangeTime(now, base, cycle), base, cycle, Step(now, base, cycle) + 10,
                if base > now then TWO64 else 0);
    }
  }

  /** A cycle of 3 ns and a base 1 ns ahead: the change is scheduled 30 ns from now, off the grid. */
  lemma GridLeft()
    ensures ConfigChangeTime(Time(0, 0), 1, 3) == 30 && !OnGrid(30, 1, 3)
  {
    assert Time(0, 0) == 0 && !FarAhead(0, 1, 3);
    assert Step(0, 1, 3) == TWO64 / 3;
    assert Later(0, 1, 3, 10) == 30;
    hide Time, FarAhead, Later, Step;
    forall k: int
      ensures Nth(1, k, 3) % 3 == 1
    {
    }
  }

  /** No time on the base's grid is more than 9 cycles from now and earlier than the one scheduled for a
      base in the past. */
  lemma ConfigChangeIsFirst(h: U32, l: U32, base: U64, cycle: U32, k: int)
    requires 0 < cycle && base <= Time(h, l) && !FarAhead(Time(h, l), base, cycle)
    requires Nth(base, k, cycle) > Time(h, l) + 9 * cycle
    ensures ConfigChangeTime(Time(h, l), base, cycle) <= Nth(base, k, cycle)
  {
    var now := Time(h, l);
    var q := Step(now, base, cycle) + 10;
    hide Time, Later, FarAhead, Step;
    LaterExact(h, l, base, cycle, 10);
    if k < q {
      MulMonotone(k, q - 1, cycle);
      MulDistributes(q - 1, 1, cycle);
    } else {
      MulMonotone(q, k, cycle);
    }
  }

  /** A cycle starts at its base time if that is not in the past; and otherwise on the base's grid, more
      than 1 and at most 2 cycles from now. */
  lemma CycleStartBounds(h: U32, l: U32, base: U64, cycle: U32)
    requires base >= Time(h, l) || cycle != 0
    ensures var now, t := Time(h, l), CycleStartTime(Time(h, l), base, cycle);
      if base >= now then t == base
      else now + cycle < t <= now + 2 * cycle && OnGrid(t, base, cycle)
  {
    hide Time, Later, Step;
    if base < Time(h, l) {
      LaterExact(h, l, base, cycle, 2);
    }
  }

  // ----- the registers -----

  /** The part of ax_irq_config_change that computes the time; trap is a division by 0. */
  method ComputeConfigChange(now: U64, base: U64, cycle: U32) returns (trap: bool, time: U64)
    ensures trap <==> !FarAhead(now, base, cycle) && cycle == 0
    ensures !trap ==> time == ConfigChangeTime(now, base, cycle)
  {
    if base >= Wrap(now + Lead(cycle)) {
      return false, base;
    }
    if cycle == 0 {
      return true, 0;
    }
    var actualStep := Wrap(now - base) / cycle;
    var nextStep := Wrap(actualStep + 10);
    return false, Wrap(base + Wrap(nextStep * cycle));
  }

  function Bit(i: nat): bv32
    requires i < 32
  {
    1 << i
  }

  /** Bit i of a request register. */
  predicate Requests(mask: bv32, i: nat)
    requires i < 32
  {
    mask & Bit(i) != 0
  }

  /** The first of ports i..n that the mask requests. */
  function FirstRequest(mask: bv32, n: nat, i: nat := 0): (p: Option<nat>)
    requires i <= n <= 32
    ensures p.Some? ==> i <= p.value < n && Requests(mask, p.value)
    ensures forall j :: i <= j < (if p.Some? then p.value else n) ==> !Requests(mask, j)
    decreases n - i
  {
    if i == n then None else if Requests(mask, i) then Some(i) else FirstRequest(mask, n, i + 1)
  }

  /** get_index_by_mask; None is -1. */
  method IndexByMask(mask: bv32, maxIndex: nat) returns (index: Option<nat>)
    requires maxIndex <= 32
    ensures index == FirstRequest(mask, maxIndex)
  {
    for i := 0 to maxIndex
      invariant FirstRequest(mask, maxIndex) == FirstRequest(mask, maxIndex, i)
    {
      if Requests(mask, i) {
        return Some(i);
      }
    }
    return None;
  }

  // ----- requests that are lost -----

  lemma BitRequests(i: nat, j: nat)
    requires i < 32 && j < 32
    ensures Requests(Bit(i), j) <==> i == j
  {
    if i == j {
      BitIsSet(i);
    } else {
      BitsDisjoint(i, j);
    }
    hide Bit;
  }

  lemma BitIsSet(i: nat)
    requires i < 32
    ensures Bit(i) & Bit(i) != 0
  {
  }

  lemma BitsDisjoint(i: nat, j: nat)
    requires i < 32 && j < 32 && i != j
    ensures Bit(i) & Bit(j) == 0
  {
  }

  lemma FlippedBit(mask: bv32, i: nat)
    requires i < 32
    ensures Requests(mask ^ Bit(i), i) <==> !Requests(mask, i)
  {
  }

  lemma UnflippedBit(mask: bv32, i: nat, j: nat)
    requires i < 32 && j < 32 && i != j
    ensures Requests(mask ^ Bit(i), j) <==> Requests(mask, j)
  {
    BitRequests(i, j);
    XorAnd(mask, Bit(i), Bit(j));
    hide Bit;
  }

  lemma XorAnd(m: bv32, x: bv32, y: bv32)
    requires x & y == 0
    ensures (m ^ x) & y == m & y
  {
  }

  lemma {:induction false} NoLowBits(mask: bv32, n: nat)
    requires n <= 32 && forall i: nat :: i < n ==> !Requests(mask, i)
    ensures mask & ((1 << n) - 1) == 0
  {
    if n == 0 {
    } else {
      NoLowBits(mask, n - 1);
      assert !Requests(mask, n - 1);
    }
  }

  lemma NoRequestIsZero(mask: bv32)
    requires forall i: nat :: i < 32 ==> !Requests(mask, i)
    ensures mask == 0
  {
    NoLowBits(mask, 32);
  }

  /** The requests that are cleared without being served: all but the first port's. */
  ghost function Lost(mask: bv32, n: nat): set<nat>
    requires n <= 32
  {
    set i: nat | i < 32 && Requests(mask, i) && FirstRequest(mask, n) != Some(i)
  }

  /** No request at all, or that of one port alone. */
  ghost predicate AtMostOne(mask: bv32, n: nat)
    requires n <= 32
  {
    mask == 0 || exists i: nat {:trigger Bit(i)} :: i < n && mask == Bit(i)
  }

  lemma ZeroRequestsNone(j: nat)
    requires j < 32
    ensures !Requests(0, j)
  {
  }

  lemma NoneLostOfZero(n: nat)
    requires n <= 32
    ensures Lost(0, n) == {}
  {
    forall j: nat {:trigger Requests(0, j)} | j < 32
      ensures !Requests(0, j)
    {
      ZeroRequestsNone(j);
    }
    hide Requests;
  }

  lemma OneIsServed(i: nat, n: nat)
    requires i < n <= 32
    ensures Lost(Bit(i), n) == {}
  {
    hide Requests, Bit;
    var mask := Bit(i);
    forall j: nat | j < 32
      ensures Requests(mask, j) <==> i == j
    {
      BitRequests(i, j);
    }
    assert Requests(mask, i);
  }

  lemma OnlyRequest(mask: bv32, i: nat)
    requires i < 32 && Requests(mask, i)
    requires forall j: nat :: j < 32 && Requests(mask, j) ==> j == i
    ensures mask == Bit(i)
  {
    var rest := mask ^ Bit(i);
    forall j: nat | j < 32
      ensures !Requests(rest, j)
    {
      if i == j {
        FlippedBit(mask, i);
      } else {
        UnflippedBit(mask, i, j);
      }
    }
    NoRequestIsZero(rest);
  }

  lemma NoneLostMeansOne(mask: bv32, n: nat)
    requires n <= 32 && Lost(mask, n) == {}
    ensures AtMostOne(mask, n)
  {
    hide Requests, Bit;
    assert forall i: nat :: i < 32 && Requests(mask, i) ==> i !in Lost(mask, n);
    if i: nat :| i < 32 && Requests(mask, i) {
      OnlyRequest(mask, i);
    } else {
      NoRequestIsZero(mask);
    }
  }

  /** Every request is served if and only if there is none, or one port below n requests alone. */
  lemma NoneLostIff(mask: bv32, n: nat)
    requires n <= 32
    ensures Lost(mask, n) == {} <==> AtMostOne(mask, n)
  {
    hide Lost, Bit, Requests;
    if Lost(mask, n) == {} {
      NoneLostMeansOne(mask, n);
    }
    if mask == 0 {
      NoneLostOfZero(n);
    } else if AtMostOne(mask, n) {
      var i: nat :| i < n && mask == Bit(i);
      OneIsServed(i, n);
    }
  }

  /** With two ports: of two requests the second is lost, and one of no port is lost without any port
      being served. */
  lemma RequestsLost()
    ensures FirstRequest(3, 2) == Some(0) && Lost(3, 2) == {1}
    ensures FirstRequest(4, 2) == None && Lost(4, 2) == {2}
  {
    assert Requests(3, 0) && Requests(3, 1) && !Requests(4, 0) && !Requests(4, 1) && Requests(4, 2);
    forall j: nat {:trigger Requests(3, j)} | 2 <= j < 32
      ensures !Requests(3, j) && (Requests(4, j) <==> j == 2)
    {
      BitRequests(2, j);
      BitRequests(0, j);
      BitRequests(1, j);
      assert Requests(3, j) <==> Requests(1, j) || Requests(2, j);
      assert Bit(0) == 1 && Bit(1) == 2 && Bit(2) == 4;
    }
    hide Requests;
  }

  // ----- the registers of a switch -----

  /** The registers of one port, behind QBV_PORT_SELECTOR, that ax_irq_config_change uses. */
  class PortRegisters {
    var adminCycleTime: U32
    var adminBaseTimeHi: U32
    var adminBaseTimeLo: U32
    var timerDomainIndex: U32
    var configChangeTimeHi: U32
    var configChangeTimeLo: U32
    var configChangeCtrl: U32

    constructor (cycleTime: U32, baseTimeHi: U32, baseTimeLo: U32, domain: U32)
      ensures adminCycleTime == cycleTime && timerDomainIndex == domain
      ensures adminBaseTimeHi == baseTimeHi && adminBaseTimeLo == baseTimeLo
    {
      adminCycleTime, adminBaseTimeHi, adminBaseTimeLo := cycleTime, baseTimeHi, baseTimeLo;
      timerDomainIndex, configChangeTimeHi, configChangeTimeLo, configChangeCtrl := domain, 0, 0, 0;
    }

    ghost function Base(): U64
      reads this`adminBaseTimeHi, this`adminBaseTimeLo
    {
      adminBaseTimeHi * TWO32 + adminBaseTimeLo
    }

    /** The time shown by the port's timer: domain d has timer d + 1. */
    ghost function Now(clock: U32 -> (U32, U32)): U64
      reads this`timerDomainIndex
    {
      var reading := clock((timerDomainIndex + 1) % TWO32);
      Time(reading.0, reading.1)
    }

    /** The time that the two halves hold. */
    ghost function Scheduled(): U64
      reads this`configChangeTimeHi, this`configChangeTimeLo
    {
      configChangeTimeHi * TWO32 + configChangeTimeLo
    }

    /** The computation of the time divides by 0. */
    ghost predicate Traps(clock: U32 -> (U32, U32))
      reads this`adminCycleTime, this`adminBaseTimeHi, this`adminBaseTimeLo, this`timerDomainIndex
    {
      !FarAhead(Now(clock), Base(), adminCycleTime) && adminCycleTime == 0
    }

    /** What the registers mean: 64-bit values are in two halves of 32 bits, and the timer of domain d, which
        has number d + 1, shows seconds and nanoseconds. */
    lemma RegistersMean(clock: U32 -> (U32, U32))
      ensures Base() / 0x1_0000_0000 == adminBaseTimeHi && Base() % 0x1_0000_0000 == adminBaseTimeLo
      ensures Scheduled() / 0x1_0000_0000 == configChangeTimeHi && Scheduled() % 0x1_0000_0000 == configChangeTimeLo
      ensures timerDomainIndex < 0xffff_ffff ==>
        Now(clock) == clock(timerDomainIndex + 1).0 * 1_000_000_000 + clock(timerDomainIndex + 1).1
      ensures timerDomainIndex == 0xffff_ffff ==> Now(clock) == clock(0).0 * 1_000_000_000 + clock(0).1
    {
    }

    /** The time in two halves, and then the valid bit. */
    method Send(time: U64)
      modifies this`configChangeTimeHi, this`configChangeTimeLo, this`configChangeCtrl
      ensures Scheduled() == time && configChangeCtrl == 1
    {
      configChangeTimeHi := time / TWO32;
      configChangeTimeLo := time % TWO32;
      configChangeCtrl := 1;
    }
  }

  class Switch {
    const ports: seq<PortRegisters>
    var portSelector: nat
    var timerSelector: U32
    var configChangeReq: bv32

    constructor (ports: seq<PortRegisters>)
      ensures this.ports == ports
    {
      this.ports := ports;
      portSelector, timerSelector, configChangeReq := 0, 0, 0;
    }

    /** The registers of the first port that requests a change, if any. */
    ghost function Requesting(): (rs: set<PortRegisters>)
      requires |ports| <= 32
      reads this
    {
      match FirstRequest(configChangeReq, |ports|)
      case None => {}
      case Some(p) => {ports[p]}
    }

    /** The part of ax_irq_config_change for the selected port, for what each timer shows. */
    method Serve(regs: PortRegisters, clock: U32 -> (U32, U32)) returns (trap: bool)
      modifies this`timerSelector
      modifies regs`configChangeTimeHi, regs`configChangeTimeLo, regs`configChangeCtrl
      ensures trap <==> regs.Traps(clock)
      ensures trap ==> unchanged(regs)
      ensures timerSelector == if regs.timerDomainIndex == 0xffff_ffff then 0 else regs.timerDomainIndex + 1
      ensures !trap ==>
        && regs.configChangeCtrl == 1
        && regs.Scheduled() == ConfigChangeTime(regs.Now(clock), regs.Base(), regs.adminCycleTime)
    {
      hide Time, ConfigChangeTime, FarAhead, PortRegisters.Scheduled;
      var cycle := regs.adminCycleTime;
      var base := regs.adminBaseTimeHi * TWO32 + regs.adminBaseTimeLo;
      timerSelector := (regs.timerDomainIndex + 1) % TWO32;
      var reading := clock(timerSelector);
      var now := Time(reading.0, reading.1);
      var time;
      trap, time := ComputeConfigChange(now, base, cycle);
      if !trap {
        regs.Send(time);
      }
    }

    /** ax_irq_config_change. The first port that requests a change gets one, unless the computation divides
        by a cycle time of 0: then the handler gets no further. Otherwise the request register is cleared,
        so that every request but that of the first port is lost: none is if and only if at most one port
        requests, and no bit past the ports is set. */
    method ConfigChange(clock: U32 -> (U32, U32)) returns (trap: bool)
      requires |ports| <= 32
      modifies this
      modifies Requesting()`configChangeTimeHi, Requesting()`configChangeTimeLo, Requesting()`configChangeCtrl
      ensures trap <==> exists r :: r in old(Requesting()) && old(r.Traps(clock))
      ensures configChangeReq == if trap then old(configChangeReq) else 0
      ensures var port := FirstRequest(old(configChangeReq), |ports|);
        portSelector == if port == None then old(portSelector) else port.value
      ensures Lost(old(configChangeReq), |ports|) == {} <==> AtMostOne(old(configChangeReq), |ports|)
      ensures forall r :: r in ports && (trap || r !in old(Requesting())) ==> unchanged(r)
      ensures forall r :: r in old(Requesting()) && !trap ==>
        && r.configChangeCtrl == 1
        && r.Scheduled() == ConfigChangeTime(old(r.Now(clock)), old(r.Base()), old(r.adminCycleTime))
    {
      hide Requests, FirstRequest, Time, ConfigChangeTime, FarAhead, Lost, AtMostOne,
           PortRegisters.Scheduled, PortRegisters.Traps, PortRegisters.Now, PortRegisters.Base;
      NoneLostIff(configChangeReq, |ports|);
      trap := false;
      var port := IndexByMask(configChangeReq, |ports|);
      if port != None {
        portSelector := port.value;
        trap := Serve(ports[portSelector], clock);
        if trap {
          return;
        }
      }
      configChangeReq := 0;
    }
  }
}

/** The pre-trade circuit breaker (flow/src/circuit_breaker.rs), as the steps each call takes between its lock
    acquisitions. Time and the token bucket are real numbers. */
module Breaker {
  import opened Events

  datatype HaltReason = RateLimit | PositionCap | DailyLossFloor | OrderToTradeRatio | FeedGap | Manual

  datatype Decision = Allow | Block(reason: HaltReason)

  datatype Way = Buy | Sell

  /** A prospective order, or an execution report. */
  datatype Intent = Intent(instrument: U32, way: Way, qty: U32, price: U64)

  datatype Config = Config(
    maxOrdersPerSec: Option<U32>, maxPosition: Option<int>, maxDailyLoss: Option<int>, maxRatio: Option<real>,
    warmup: nat, gapThreshold: Option<nat>, gapWindow: real)

  datatype Bucket = Bucket(tokens: real, last: real, capacity: real)

  function MinReal(a: real, b: real): real {
    if a <= b then a else b
  }

  /** Tokens refill for the time since the last call; a clock that steps back counts as no time. */
  function Refill(b: Bucket, rate: real, now: real): real {
    MinReal(b.tokens + (if now > b.last then now - b.last else 0.0) * rate, b.capacity)
  }

  function TryTake(b: Bucket, rate: real, now: real): (Bucket, bool) {
    var t := Refill(b, rate, now);
    (Bucket(if t >= 1.0 then t - 1.0 else t, now, b.capacity), t >= 1.0)
  }

  function Abs(x: int): nat {
    if x < 0 then -x else x
  }

  function Signed(i: Intent): int {
    var q: int := i.qty;
    if i.way.Buy? then q else -q
  }

  /** A price read as a signed 64-bit number. */
  function Ticks(p: U64): int {
    if p < 0x8000_0000_0000_0000 then p else p - 0x1_0000_0000_0000_0000
  }

  /** Cash in for a sale, out for a purchase. */
  function CashOf(i: Intent): int {
    -Signed(i) * Ticks(i.price)
  }

  datatype Shared = Shared(
    reason: Option<HaltReason>, halted: bool, orders: nat, trades: nat, cash: int, positions: map<U32, int>,
    bucket: Bucket, gaps: seq<real>)

  function Initial(c: Config, now: real): Shared {
    var burst: real := if c.maxOrdersPerSec.Some? then c.maxOrdersPerSec.value as real else 0xFFFF_FFFF as real;
    Shared(None, false, 0, 0, 0, map[], Bucket(burst, now, burst), [])
  }

  function Position(s: Shared, k: U32): int {
    if k in s.positions then s.positions[k] else 0
  }

  /** Gaps no older than `cutoff`. */
  function Recent(ts: seq<real>, cutoff: real): seq<real> {
    if ts == [] then []
    else Recent(ts[..|ts| - 1], cutoff) + if ts[|ts| - 1] >= cutoff then [ts[|ts| - 1]] else []
  }

  /** Only an empty slot is written, so the first reason stays. */
  function Latched(s: Shared, r: HaltReason): Shared {
    if s.reason.None? then s.(reason := Some(r), halted := true) else s
  }

  /** Where a call stands. `at` is the time a check drew its token. */
  datatype Pc =
    | CheckStart(i: Intent)
    | CheckRate(i: Intent)
    | CheckPosition(i: Intent, at: real)
    | CheckLoss(i: Intent, at: real)
    | CheckOrders(i: Intent, at: real)
    | CheckTrades(i: Intent, at: real, sent: nat)
    | CheckCount(i: Intent, at: real)
    | Latching(r: HaltReason)
    | FillTrade(i: Intent)
    | FillPosition(i: Intent)
    | FillCash(i: Intent)
    | GapLog
    | GapPrune
    | DayOrders
    | DayTrades
    | DayCash
    | DayPositions
    | DayGaps
    | ResetReason
    | ResetHalted
    | Done(decision: Option<Decision>)

  /** Where each public call begins: check, record_fill, record_gap, snapshot, manual_halt, reset, start_of_day. */
  predicate Entry(pc: Pc) {
    pc.CheckStart? || pc.FillTrade? || pc.GapLog? || pc.GapPrune? || pc == Latching(Manual) || pc.ResetReason? || pc.DayOrders?
  }

  predicate OverPosition(c: Config, s: Shared, i: Intent) {
    c.maxPosition.Some? && Abs(Position(s, i.instrument) + Signed(i)) > c.maxPosition.value
  }

  predicate OverLoss(c: Config, s: Shared) {
    c.maxDailyLoss.Some? && s.cash < -c.maxDailyLoss.value
  }

  predicate Watched(c: Config, s: Shared) {
    c.maxRatio.Some? && s.orders >= c.warmup
  }

  predicate OverRatio(c: Config, sent: nat, trades: nat) {
    c.maxRatio.Some? && sent as real / (if trades > 1 then trades else 1) as real > c.maxRatio.value
  }

  function Take(c: Config, s: Shared, i: Intent, now: real): (Shared, Pc) {
    if c.maxOrdersPerSec.None? then (s, CheckPosition(i, now))
    else
      var (b, granted) := TryTake(s.bucket, c.maxOrdersPerSec.value as real, now);
      (s.(bucket := b), if granted then CheckPosition(i, now) else Latching(RateLimit))
  }

  function LogGap(c: Config, s: Shared, now: real): (Shared, Pc) {
    if c.gapThreshold.None? then (s, Done(None))
    else
      var log := Recent(s.gaps, now - c.gapWindow) + [now];
      (s.(gaps := log), if |log| >= c.gapThreshold.value then Latching(FeedGap) else Done(None))
  }

  function Booked(s: Shared, i: Intent): Shared {
    s.(positions := s.positions[i.instrument := Position(s, i.instrument) + Signed(i)])
  }

  /** One step of one call: what happens under a single lock or atomic. */
  function Advance(c: Config, s: Shared, pc: Pc, now: real): (Shared, Pc) {
    match pc
    case CheckStart(i) => (s, if s.reason.Some? then Done(Some(Block(s.reason.value))) else CheckRate(i))
    case CheckRate(i) => Take(c, s, i, now)
    case CheckPosition(i, at) => (s, if OverPosition(c, s, i) then Latching(PositionCap) else CheckLoss(i, at))
    case CheckLoss(i, at) => (s, if OverLoss(c, s) then Latching(DailyLossFloor) else CheckOrders(i, at))
    case CheckOrders(i, at) => (s, if Watched(c, s) then CheckTrades(i, at, s.orders) else CheckCount(i, at))
    case CheckTrades(i, at, sent) =>
      (s, if OverRatio(c, sent, s.trades) then Latching(OrderToTradeRatio) else CheckCount(i, at))
    case CheckCount(i, at) => (s.(orders := s.orders + 1), Done(Some(Allow)))
    case Latching(r) => (Latched(s, r), Done(Some(Block(Latched(s, r).reason.value))))
    case FillTrade(i) => (s.(trades := s.trades + 1), FillPosition(i))
    case FillPosition(i) => (Booked(s, i), FillCash(i))
    case FillCash(i) => (s.(cash := s.cash + CashOf(i)), Done(None))
    case GapLog => LogGap(c, s, now)
    case GapPrune => (s.(gaps := Recent(s.gaps, now - c.gapWindow)), Done(None))
    case DayOrders => (s.(orders := 0), DayTrades)
    case DayTrades => (s.(trades := 0), DayCash)
    case DayCash => (s.(cash := 0), DayPositions)
    case DayPositions => (s.(positions := map[]), DayGaps)
    case DayGaps => (s.(gaps := []), ResetReason)
    case ResetReason => (s.(reason := None), ResetHalted)
    case ResetHalted => (s.(halted := false), Done(None))
    case Done(_) => (s, pc)
  }

  function Rank(pc: Pc): nat {
    match pc
    case CheckStart(_) => 8
    case CheckRate(_) => 7
    case CheckPosition(_, _) => 6
    case CheckLoss(_, _) => 5
    case CheckOrders(_, _) => 4
    case CheckTrades(_, _, _) => 3
    case CheckCount(_, _) => 2
    case Latching(_) => 1
    case FillTrade(_) => 3
    case FillPosition(_) => 2
    case FillCash(_) => 1
    case GapLog => 2
    case GapPrune => 1
    case DayOrders => 7
    case DayTrades => 6
    case DayCash => 5
    case DayPositions => 4
    case DayGaps => 3
    case ResetReason => 2
    case ResetHalted => 1
    case Done(_) => 0
  }

  lemma AdvanceDescends(c: Config, s: Shared, pc: Pc, now: real)
    requires !pc.Done?
    ensures Rank(Advance(c, s, pc, now).1) < Rank(pc)
  {
  }

  /** A call that runs with nobody else in between. */
  function Solo(c: Config, s: Shared, pc: Pc, now: real): (Shared, Option<Decision>)
    decreases Rank(pc)
  {
    if pc.Done? then (s, pc.decision)
    else AdvanceDescends(c, s, pc, now); Solo(c, Advance(c, s, pc, now).0, Advance(c, s, pc, now).1, now)
  }

  lemma SoloStep(c: Config, s: Shared, pc: Pc, now: real)
    requires !pc.Done?
    ensures Solo(c, s, pc, now) == Solo(c, Advance(c, s, pc, now).0, Advance(c, s, pc, now).1, now)
  {
  }

  function Filled(s: Shared, i: Intent): Shared {
    Booked(s, i).(trades := s.trades + 1, cash := s.cash + CashOf(i))
  }

  function DayStarted(s: Shared): Shared {
    Shared(None, false, 0, 0, 0, map[], s.bucket, [])
  }

  lemma SoloLatch(c: Config, s: Shared, r: HaltReason, now: real)
    ensures Solo(c, s, Latching(r), now) == (Latched(s, r), Some(Block(Latched(s, r).reason.value)))
  {
  }

  lemma SoloFill(c: Config, s: Shared, i: Intent, now: real)
    ensures Solo(c, s, FillTrade(i), now) == (Filled(s, i), None)
  {
    var s1 := s.(trades := s.trades + 1);
    SoloStep(c, s, FillTrade(i), now);
    SoloStep(c, s1, FillPosition(i), now);
    SoloStep(c, Booked(s1, i), FillCash(i), now);
  }

  lemma SoloReset(c: Config, s: Shared, now: real)
    ensures Solo(c, s, ResetReason, now) == (s.(reason := None, halted := false), None)
  {
    SoloStep(c, s, ResetReason, now);
    SoloStep(c, s.(reason := None), ResetHalted, now);
  }

  lemma SoloDayTail(c: Config, s: Shared, now: real)
    ensures Solo(c, s, DayPositions, now) == (s.(positions := map[], gaps := [], reason := None, halted := false), None)
  {
    var s1 := s.(positions := map[]);
    SoloStep(c, s, DayPositions, now);
    SoloStep(c, s1, DayGaps, now);
    SoloReset(c, s1.(gaps := []), now);
  }

  lemma SoloDayCash(c: Config, s: Shared, now: real)
    ensures Solo(c, s, DayCash, now) == (DayStarted(s).(orders := s.orders, trades := s.trades), None)
  {
    SoloStep(c, s, DayCash, now);
    SoloDayTail(c, s.(cash := 0), now);
  }

  lemma SoloDayTrades(c: Config, s: Shared, now: real)
    ensures Solo(c, s, DayTrades, now) == (DayStarted(s).(orders := s.orders), None)
  {
    SoloStep(c, s, DayTrades, now);
    SoloDayCash(c, s.(trades := 0), now);
  }

  lemma SoloDay(c: Config, s: Shared, now: real)
    ensures Solo(c, s, DayOrders, now) == (DayStarted(s), None)
  {
    SoloStep(c, s, DayOrders, now);
    SoloDayTrades(c, s.(orders := 0), now);
  }

  class CircuitBreaker {
    const config: Config
    var reason: Option<HaltReason>
    var halted: bool
    var ordersSent: nat
    var tradesDone: nat
    var cash: int
    var positions: map<U32, int>
    var rate: Bucket
    var gapLog: seq<real>

    ghost function Value(): Shared
      reads this
    {
      Shared(reason, halted, ordersSent, tradesDone, cash, positions, rate, gapLog)
    }

    constructor (config: Config, now: real)
      ensures this.config == config && Value() == Initial(config, now)
    {
      var burst: real := if config.maxOrdersPerSec.Some? then config.maxOrdersPerSec.value as real else 0xFFFF_FFFF as real;
      this.config := config;
      reason, halted, ordersSent, tradesDone, cash := None, false, 0, 0, 0;
      positions, rate, gapLog := map[], Bucket(burst, now, burst), [];
    }

    method Check(i: Intent, now: real) returns (d: Decision)
      modifies this
      ensures (Value(), Some(d)) == Solo(config, old(Value()), CheckStart(i), now)
    {
      if reason.Some? {
        return Block(reason.value);
      }
      SoloStep(config, Value(), CheckStart(i), now);
      SoloStep(config, Value(), CheckRate(i), now);
      if config.maxOrdersPerSec.Some? {
        var granted := Draw(config.maxOrdersPerSec.value as real, now);
        if !granted {
          SoloLatch(config, Value(), RateLimit, now);
          d := Latch(RateLimit);
          return;
        }
      }
      d := Guards(i, now);
    }

    /** The guards behind the rate limit. */
    method Guards(i: Intent, now: real) returns (d: Decision)
      modifies this
      ensures (Value(), Some(d)) == Solo(config, old(Value()), CheckPosition(i, now), now)
    {
      SoloStep(config, Value(), CheckPosition(i, now), now);
      if config.maxPosition.Some? {
        var current := if i.instrument in positions then positions[i.instrument] else 0;
        if Abs(current + Signed(i)) > config.maxPosition.value {
          SoloLatch(config, Value(), PositionCap, now);
          d := Latch(PositionCap);
          return;
        }
      }
      SoloStep(config, Value(), CheckLoss(i, now), now);
      if config.maxDailyLoss.Some? && cash < -config.maxDailyLoss.value {
        SoloLatch(config, Value(), DailyLossFloor, now);
        d := Latch(DailyLossFloor);
        return;
      }
      d := RatioGuard(i, now);
    }

    method RatioGuard(i: Intent, ghost now: real) returns (d: Decision)
      modifies this
      ensures (Value(), Some(d)) == Solo(config, old(Value()), CheckOrders(i, now), now)
    {
      SoloStep(config, Value(), CheckOrders(i, now), now);
      if config.maxRatio.Some? && ordersSent >= config.warmup {
        var trades := if tradesDone > 1 then tradesDone else 1;
        SoloStep(config, Value(), CheckTrades(i, now, ordersSent), now);
        if ordersSent as real / trades as real > config.maxRatio.value {
          SoloLatch(config, Value(), OrderToTradeRatio, now);
          d := Latch(OrderToTradeRatio);
          return;
        }
      }
      SoloStep(config, Value(), CheckCount(i, now), now);
      ordersSent := ordersSent + 1;
      d := Allow;
    }

    method Draw(perSec: real, now: real) returns (granted: bool)
      modifies this`rate
      ensures (rate, granted) == TryTake(old(rate), perSec, now)
    {
      var elapsed := if now > rate.last then now - rate.last else 0.0;
      var tokens := MinReal(rate.tokens + elapsed * perSec, rate.capacity);
      assert tokens == Refill(rate, perSec, now);
      granted := tokens >= 1.0;
      if granted {
        tokens := tokens - 1.0;
      }
      rate := Bucket(tokens, now, rate.capacity);
    }

    method Latch(r: HaltReason) returns (d: Decision)
      modifies this`reason, this`halted
      ensures Value() == Latched(old(Value()), r) && d == Block(reason.value)
    {
      if reason.None? {
        reason := Some(r);
        halted := true;
      }
      d := Block(reason.value);
    }

    method RecordFill(i: Intent)
      modifies this`tradesDone, this`positions, this`cash
      ensures Value() == Filled(old(Value()), i)
    {
      tradesDone := tradesDone + 1;
      positions := positions[i.instrument := (if i.instrument in positions then positions[i.instrument] else 0) + Signed(i)];
      cash := cash + CashOf(i);
    }

    method RecordGap(now: real)
      modifies this`gapLog, this`reason, this`halted
      ensures Value() == Solo(config, old(Value()), GapLog, now).0
    {
      if config.gapThreshold.None? {
        return;
      }
      SoloStep(config, Value(), GapLog, now);
      var recent := Retain(gapLog, now - config.gapWindow);
      gapLog := recent + [now];
      if |gapLog| >= config.gapThreshold.value {
        SoloLatch(config, Value(), FeedGap, now);
        var _ := Latch(FeedGap);
      }
    }

    /** Telemetry reads every field; of these only the gap log changes, by losing what left the window. */
    method GapsInWindow(now: real) returns (n: nat)
      modifies this`gapLog
      ensures Value() == Solo(config, old(Value()), GapPrune, now).0 && n == |gapLog|
    {
      SoloStep(config, Value(), GapPrune, now);
      gapLog := Retain(gapLog, now - config.gapWindow);
      n := |gapLog|;
    }

    method ManualHalt()
      modifies this`reason, this`halted
      ensures Value() == Latched(old(Value()), Manual)
    {
      var _ := Latch(Manual);
    }

    method Reset()
      modifies this`reason, this`halted
      ensures Value() == old(Value()).(reason := None, halted := false)
    {
      reason := None;
      halted := false;
    }

    method StartOfDay()
      modifies this
      ensures Value() == DayStarted(old(Value()))
    {
      ordersSent, tradesDone, cash := 0, 0, 0;
      positions, gapLog := map[], [];
      Reset();
    }
  }

  /** `retain`: drop the entries before the cutoff, keep the order. */
  method Retain(log: seq<real>, cutoff: real) returns (r: seq<real>)
    ensures r == Recent(log, cutoff)
  {
    r := [];
    for k := 0 to |log|
      invariant r == Recent(log[..k], cutoff)
    {
      assert log[..k + 1][..k] == log[..k];
      if log[k] >= cutoff {
        r := r + [log[k]];
      }
    }
    assert log[..|log|] == log;
  }
}

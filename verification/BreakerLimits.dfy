/** The position cap over whole sessions of the circuit breaker (flow/src/circuit_breaker.rs): calls made one after the
    other, fills settling before the next check. */
module BreakerLimits {
  import opened Events
  import opened Breaker

  datatype Op = Check(i: Intent) | Fill(i: Intent) | Gap | Sample | Halt | Reset | Day

  function EntryOf(op: Op): Pc {
    match op
    case Check(i) => CheckStart(i)
    case Fill(i) => FillTrade(i)
    case Gap => GapLog
    case Sample => GapPrune
    case Halt => Latching(Manual)
    case Reset => ResetReason
    case Day => DayOrders
  }

  /** What is still to be filled of the order the last check allowed. */
  datatype Open = Open(instrument: U32, way: Way, left: U32) {
    function Rest(): Intent {
      Intent(instrument, way, left, 0)
    }
  }

  datatype Session = Session(shared: Shared, order: Option<Open>)

  /** The largest position the cap admits. A negative cap lets no order through at all. */
  function Cap(c: Config): nat
    requires c.maxPosition.Some?
  {
    if c.maxPosition.value < 0 then 0 else c.maxPosition.value
  }

  /** Fills belong to the last allowed order and do not exceed it; an order carried over a session boundary must fit
      the cap by itself. */
  predicate Settles(c: Config, x: Session, op: Op)
    requires c.maxPosition.Some?
  {
    match op
    case Fill(i) =>
      x.order.Some? && x.order.value.instrument == i.instrument && x.order.value.way == i.way && i.qty <= x.order.value.left
    case Day => x.order.Some? ==> x.order.value.left <= Cap(c)
    case _ => true
  }

  function Next(c: Config, x: Session, op: Op, now: real): Session
    requires c.maxPosition.Some? && Settles(c, x, op)
  {
    var (s, d) := Solo(c, x.shared, EntryOf(op), now);
    match op
    case Check(i) => Session(s, if d == Some(Allow) then Some(Open(i.instrument, i.way, i.qty)) else None)
    case Fill(i) => Session(s, Some(x.order.value.(left := x.order.value.left - i.qty)))
    case _ => Session(s, x.order)
  }

  ghost predicate Within(c: Config, x: Session)
    requires c.maxPosition.Some?
  {
    && (forall k: U32 :: Abs(Position(x.shared, k)) <= Cap(c))
    && (x.order.Some? ==>
          Abs(Position(x.shared, x.order.value.instrument) + Signed(x.order.value.Rest())) <= Cap(c))
  }

  // ---------------------------------------------------------------- what single calls do to positions

  predicate Quiet(pc: Pc) {
    !(pc.FillTrade? || pc.FillPosition? || pc.DayOrders? || pc.DayTrades? || pc.DayCash? || pc.DayPositions?)
  }

  lemma {:induction false} SoloKeepsPositions(c: Config, s: Shared, pc: Pc, now: real)
    requires Quiet(pc)
    ensures Solo(c, s, pc, now).0.positions == s.positions
    decreases Rank(pc)
  {
    if !pc.Done? {
      AdvanceDescends(c, s, pc, now);
      SoloStep(c, s, pc, now);
      QuietStep(c, s, pc, now);
      SoloKeepsPositions(c, Advance(c, s, pc, now).0, Advance(c, s, pc, now).1, now);
    }
  }

  lemma QuietStep(c: Config, s: Shared, pc: Pc, now: real)
    requires Quiet(pc)
    ensures Quiet(Advance(c, s, pc, now).1) && Advance(c, s, pc, now).0.positions == s.positions
  {
  }

  /** A check of `i` that has not yet met the position guard, or has passed it, or has been refused. */
  predicate Guarded(c: Config, s: Shared, pc: Pc, i: Intent) {
    || ((pc.CheckStart? || pc.CheckRate? || pc.CheckPosition?) && pc.i == i)
    || ((pc.CheckLoss? || pc.CheckOrders? || pc.CheckTrades? || pc.CheckCount?) && pc.i == i && !OverPosition(c, s, i))
    || pc.Latching?
    || (pc.Done? && (pc.decision == Some(Allow) ==> !OverPosition(c, s, i)))
  }

  lemma GuardedStep(c: Config, s: Shared, pc: Pc, now: real, i: Intent)
    requires Guarded(c, s, pc, i)
    ensures Guarded(c, Advance(c, s, pc, now).0, Advance(c, s, pc, now).1, i)
  {
  }

  /** An allowed order fits the cap if it is filled in full. */
  lemma {:induction false} AllowFits(c: Config, s: Shared, pc: Pc, now: real, i: Intent)
    requires Guarded(c, s, pc, i)
    ensures var (v, d) := Solo(c, s, pc, now); d == Some(Allow) ==> !OverPosition(c, v, i)
    decreases Rank(pc)
  {
    if !pc.Done? {
      AdvanceDescends(c, s, pc, now);
      SoloStep(c, s, pc, now);
      GuardedStep(c, s, pc, now, i);
      AllowFits(c, Advance(c, s, pc, now).0, Advance(c, s, pc, now).1, now, i);
    }
  }

  // ---------------------------------------------------------------- whole sessions

  lemma CheckWithin(c: Config, x: Session, i: Intent, now: real)
    requires c.maxPosition.Some? && Within(c, x)
    ensures Within(c, Next(c, x, Check(i), now))
  {
    var y := Next(c, x, Check(i), now);
    SoloKeepsPositions(c, x.shared, CheckStart(i), now);
    AllowFits(c, x.shared, CheckStart(i), now, i);
    assert forall k: U32 :: Position(y.shared, k) == Position(x.shared, k);
    if y.order.Some? {
      assert Signed(y.order.value.Rest()) == Signed(i);
    }
  }

  /** A partial fill leaves the position between where it was and where the full fill would take it. */
  lemma FillWithin(c: Config, x: Session, i: Intent, now: real)
    requires c.maxPosition.Some? && Within(c, x) && Settles(c, x, Fill(i))
    ensures Within(c, Next(c, x, Fill(i), now))
  {
    var y := Next(c, x, Fill(i), now);
    SoloFill(c, x.shared, i, now);
    assert Position(y.shared, i.instrument) == Position(x.shared, i.instrument) + Signed(i);
    assert Signed(x.order.value.Rest()) == Signed(i) + Signed(y.order.value.Rest());
    assert Abs(Position(x.shared, i.instrument)) <= Cap(c);
    forall k: U32 | k != i.instrument
      ensures Position(y.shared, k) == Position(x.shared, k)
    {
    }
  }

  lemma DayWithin(c: Config, x: Session, now: real)
    requires c.maxPosition.Some? && Within(c, x) && Settles(c, x, Day)
    ensures Within(c, Next(c, x, Day, now))
  {
    SoloDay(c, x.shared, now);
    assert forall k: U32 :: Position(DayStarted(x.shared), k) == 0;
  }

  lemma QuietWithin(c: Config, x: Session, op: Op, now: real)
    requires c.maxPosition.Some? && Within(c, x) && (op.Gap? || op.Sample? || op.Halt? || op.Reset?)
    ensures Within(c, Next(c, x, op, now))
  {
    SoloKeepsPositions(c, x.shared, EntryOf(op), now);
    assert forall k: U32 :: Position(Next(c, x, op, now).shared, k) == Position(x.shared, k);
  }

  lemma OpWithin(c: Config, x: Session, op: Op, now: real)
    requires c.maxPosition.Some? && Within(c, x) && Settles(c, x, op)
    ensures Within(c, Next(c, x, op, now))
  {
    match op
    case Check(i) => CheckWithin(c, x, i, now);
    case Fill(i) => FillWithin(c, x, i, now);
    case Day => DayWithin(c, x, now);
    case _ => QuietWithin(c, x, op, now);
  }

  ghost predicate IsSession(c: Config, xs: seq<Session>, ops: seq<Op>, times: seq<real>, start: real)
    requires c.maxPosition.Some?
  {
    && |xs| == |ops| + 1 && |times| == |ops| && xs[0] == Session(Initial(c, start), None)
    && forall k :: 0 <= k < |ops| ==> Settles(c, xs[k], ops[k]) && xs[k + 1] == Next(c, xs[k], ops[k], times[k])
  }

  /** Every position stays within the cap, in every state of every settling session. */
  lemma {:induction false} PositionsStayCapped(
    c: Config, xs: seq<Session>, ops: seq<Op>, times: seq<real>, start: real, n: nat)
    requires c.maxPosition.Some? && IsSession(c, xs, ops, times, start) && n <= |ops|
    ensures Within(c, xs[n])
    decreases n
  {
    if n == 0 {
      assert forall k: U32 :: Position(xs[0].shared, k) == 0;
    } else {
      PositionsStayCapped(c, xs, ops, times, start, n - 1);
      OpWithin(c, xs[n - 1], ops[n - 1], times[n - 1]);
    }
  }

  /** The session-boundary condition is exact: clearing the positions forgets what the open order was checked against,
      so filling the rest of it keeps to the cap if and only if that rest fits the cap from zero. */
  lemma CarriedOrderIff(c: Config, x: Session, now: real)
    requires c.maxPosition.Some? && x.order.Some?
    ensures var s := Solo(c, Solo(c, x.shared, DayOrders, now).0, FillTrade(x.order.value.Rest()), now).0;
            Abs(Position(s, x.order.value.instrument)) <= Cap(c) <==> x.order.value.left <= Cap(c)
  {
    SoloDay(c, x.shared, now);
    SoloFill(c, DayStarted(x.shared), x.order.value.Rest(), now);
  }

  /** A breaker with the position cap alone. */
  function CapOnly(cap: nat): Config {
    Config(None, Some(cap), None, None, 0, None, 0.0)
  }

  lemma CapOnlyAllows(cap: nat, s: Shared, i: Intent, now: real)
    requires s.reason.None? && Abs(Position(s, i.instrument) + Signed(i)) <= cap
    ensures Solo(CapOnly(cap), s, CheckStart(i), now) == (s.(orders := s.orders + 1), Some(Allow))
  {
    var c := CapOnly(cap);
    SoloStep(c, s, CheckStart(i), now);
    SoloStep(c, s, CheckRate(i), now);
    SoloStep(c, s, CheckPosition(i, now), now);
    SoloStep(c, s, CheckLoss(i, now), now);
    SoloStep(c, s, CheckOrders(i, now), now);
    SoloStep(c, s, CheckCount(i, now), now);
  }

  /** A session that crosses the cap: sell 10 of cap 10, filled; buy 20 allowed; start of day; the 20 fill. */
  lemma BoundaryCrossesCap(price: U64)
    ensures var c, sell, buy := CapOnly(10), Intent(1, Sell, 10, price), Intent(1, Buy, 20, price);
            var sold := Solo(c, Initial(c, 0.0), CheckStart(sell), 0.0);
            var held := Solo(c, sold.0, FillTrade(sell), 0.0).0;
            var bought := Solo(c, held, CheckStart(buy), 0.0);
            var day := Solo(c, bought.0, DayOrders, 0.0).0;
            && sold.1 == bought.1 == Some(Allow)
            && Position(Solo(c, day, FillTrade(buy), 0.0).0, 1) == 20
  {
    var c, sell, buy := CapOnly(10), Intent(1, Sell, 10, price), Intent(1, Buy, 20, price);
    var s0 := Initial(c, 0.0);
    CapOnlyAllows(10, s0, sell, 0.0);
    var s1 := s0.(orders := 1);
    SoloFill(c, s1, sell, 0.0);
    assert Position(Filled(s1, sell), 1) == -10;
    CapOnlyAllows(10, Filled(s1, sell), buy, 0.0);
    var s3 := Filled(s1, sell).(orders := 2);
    SoloDay(c, s3, 0.0);
    SoloFill(c, DayStarted(s3), buy, 0.0);
  }
}

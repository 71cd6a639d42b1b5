/** What a check answers, from the breaker's fields by arithmetic alone, and how long the loss floor keeps it shut
    (flow/src/circuit_breaker.rs). */
module BreakerAnswers {
  import opened Events
  import opened Breaker
  import opened BreakerLimits
  import opened BreakerRuns

  // ---------------------------------------------------------------- the guards

  /** No rate limit, or at least one token once the time since the last call has been paid for. */
  predicate HasToken(c: Config, s: Shared, now: real) {
    c.maxOrdersPerSec.Some? ==>
      && s.bucket.capacity >= 1.0
      && s.bucket.tokens + (if now > s.bucket.last then (now - s.bucket.last) * c.maxOrdersPerSec.value as real else 0.0) >= 1.0
  }

  /** No cap, or the position stays between minus the cap and the cap when the order fills in full. */
  predicate KeepsPosition(c: Config, s: Shared, i: Intent) {
    var held := if i.instrument in s.positions then s.positions[i.instrument] else 0;
    var after := if i.way == Buy then held + i.qty else held - i.qty;
    c.maxPosition.Some? ==> -c.maxPosition.value <= after <= c.maxPosition.value
  }

  /** No floor, or the day has not lost more than it. */
  predicate AboveFloor(c: Config, s: Shared) {
    c.maxDailyLoss.Some? ==> s.cash + c.maxDailyLoss.value >= 0
  }

  /** No ratio, too few orders to judge, or no more orders than the ratio allows for the trades, of which none counts as one. */
  predicate KeepsRatio(c: Config, s: Shared) {
    c.maxRatio.Some? ==>
      s.orders < c.warmup || s.orders as real <= c.maxRatio.value * (if s.trades == 0 then 1 else s.trades) as real
  }

  lemma RatioByProduct(orders: nat, trades: nat, ratio: real)
    requires trades > 0
    ensures orders as real / trades as real > ratio <==> orders as real > ratio * trades as real
  {
    var q := orders as real / trades as real;
    assert q * trades as real == orders as real;
    if q > ratio {
      assert (q - ratio) * trades as real > 0.0;
    } else {
      assert (ratio - q) * trades as real >= 0.0;
    }
  }

  lemma GuardsMean(c: Config, s: Shared, i: Intent)
    ensures OverPosition(c, s, i) <==> !KeepsPosition(c, s, i)
    ensures OverLoss(c, s) <==> !AboveFloor(c, s)
    ensures Watched(c, s) && OverRatio(c, s.orders, s.trades) <==> !KeepsRatio(c, s)
  {
    if c.maxRatio.Some? {
      RatioByProduct(s.orders, if s.trades > 1 then s.trades else 1, c.maxRatio.value);
    }
  }

  lemma TakeMeans(c: Config, s: Shared, i: Intent, now: real)
    ensures var (r, pc) := Take(c, s, i, now);
            && r == s.(bucket := r.bucket)
            && (HasToken(c, s, now) ==> pc == CheckPosition(i, now))
            && (!HasToken(c, s, now) ==> pc == Latching(RateLimit))
  {
  }

  /** The first guard that fails, in the order in which they are asked. */
  function Refusal(c: Config, s: Shared, i: Intent, now: real): Option<HaltReason> {
    if s.reason.Some? then s.reason
    else if !HasToken(c, s, now) then Some(RateLimit)
    else if !KeepsPosition(c, s, i) then Some(PositionCap)
    else if !AboveFloor(c, s) then Some(DailyLossFloor)
    else if !KeepsRatio(c, s) then Some(OrderToTradeRatio)
    else None
  }

  lemma AfterToken(c: Config, s: Shared, i: Intent, now: real)
    requires s.reason.None?
    ensures var no := if !KeepsPosition(c, s, i) then Some(PositionCap)
                      else if !AboveFloor(c, s) then Some(DailyLossFloor)
                      else if !KeepsRatio(c, s) then Some(OrderToTradeRatio)
                      else None;
            Solo(c, s, CheckPosition(i, now), now)
            == if no.Some? then (s.(reason := no, halted := true), Some(Block(no.value)))
               else (s.(orders := s.orders + 1), Some(Allow))
  {
    GuardsMean(c, s, i);
    SoloStep(c, s, CheckPosition(i, now), now);
    SoloLatch(c, s, PositionCap, now);
    if !OverPosition(c, s, i) {
      SoloStep(c, s, CheckLoss(i, now), now);
      SoloLatch(c, s, DailyLossFloor, now);
      if !OverLoss(c, s) {
        AfterFloor(c, s, i, now);
      }
    }
  }

  lemma AfterFloor(c: Config, s: Shared, i: Intent, now: real)
    requires s.reason.None?
    ensures Solo(c, s, CheckOrders(i, now), now)
            == if Watched(c, s) && OverRatio(c, s.orders, s.trades)
               then (s.(reason := Some(OrderToTradeRatio), halted := true), Some(Block(OrderToTradeRatio)))
               else (s.(orders := s.orders + 1), Some(Allow))
  {
    SoloStep(c, s, CheckOrders(i, now), now);
    SoloLatch(c, s, OrderToTradeRatio, now);
    if Watched(c, s) {
      SoloStep(c, s, CheckTrades(i, now, s.orders), now);
    }
    SoloStep(c, s, CheckCount(i, now), now);
  }

  /** What one check answers and does. It allows the order exactly when nothing is latched and every guard holds, and
      counts it; otherwise it answers the latched reason, or latches and answers the first guard that fails. */
  lemma CheckAnswers(c: Config, s: Shared, i: Intent, now: real)
    ensures var (r, d) := Solo(c, s, CheckStart(i), now);
            var no := Refusal(c, s, i, now);
            && d == Some(if no.Some? then Block(no.value) else Allow)
            && (d == Some(Allow) <==>
                  s.reason.None? && HasToken(c, s, now) && KeepsPosition(c, s, i) && AboveFloor(c, s) && KeepsRatio(c, s))
            && r.reason == no && r.orders == (if no.None? then s.orders + 1 else s.orders)
            && r.halted == (if s.reason.None? && no.Some? then true else s.halted)
            && r == s.(reason := r.reason, halted := r.halted, orders := r.orders, bucket := r.bucket)
  {
    SoloStep(c, s, CheckStart(i), now);
    if s.reason.None? {
      SoloStep(c, s, CheckRate(i), now);
      TakeMeans(c, s, i, now);
      var t := Take(c, s, i, now).0;
      if HasToken(c, s, now) {
        AfterToken(c, t, i, now);
      } else {
        SoloLatch(c, t, RateLimit, now);
      }
    }
  }

  /** The bucket after a check: refilled for the time that has passed, never above its capacity, and one token less if
      there was one to take. A check that finds a reason latched leaves it alone, as does one without a rate limit. */
  lemma CheckDraws(c: Config, s: Shared, i: Intent, now: real)
    ensures var b := Solo(c, s, CheckStart(i), now).0.bucket;
            if s.reason.Some? || c.maxOrdersPerSec.None? then b == s.bucket
            else
              var earned := if now > s.bucket.last then (now - s.bucket.last) * c.maxOrdersPerSec.value as real else 0.0;
              var full := if s.bucket.tokens + earned <= s.bucket.capacity then s.bucket.tokens + earned else s.bucket.capacity;
              b == Bucket(if full >= 1.0 then full - 1.0 else full, now, s.bucket.capacity)
  {
    SoloStep(c, s, CheckStart(i), now);
    if s.reason.None? {
      SoloStep(c, s, CheckRate(i), now);
      var t := Take(c, s, i, now).0;
      if HasToken(c, s, now) {
        AfterToken(c, t, i, now);
      } else {
        SoloLatch(c, t, RateLimit, now);
      }
    }
  }

  // ---------------------------------------------------------------- fills

  /** A purchase adds to the position and pays quantity times price, a sale the other way round; prices from 2^63 on are
      read as negative. */
  lemma FillBooks(c: Config, s: Shared, i: Intent, now: real)
    ensures var r := Solo(c, s, FillTrade(i), now).0;
            var held := if i.instrument in s.positions then s.positions[i.instrument] else 0;
            var price: int := if i.price < 0x8000_0000_0000_0000 then i.price else i.price - 0x1_0000_0000_0000_0000;
            && r == s.(trades := s.trades + 1, positions := r.positions, cash := r.cash)
            && r.positions == s.positions[i.instrument := if i.way == Buy then held + i.qty else held - i.qty]
            && r.cash == if i.way == Buy then s.cash - i.qty * price else s.cash + i.qty * price
  {
    SoloFill(c, s, i, now);
    NegatedProduct(i.qty, Ticks(i.price));
  }

  lemma NegatedProduct(q: int, p: int)
    ensures (-q) * p == -(q * p)
  {
  }

  /** Buying and selling the same quantity earns the difference in price, and leaves the position where it was. */
  lemma RoundTripEarns(c: Config, s: Shared, k: U32, q: U32, p: U64, p': U64, now: real)
    requires p < 0x8000_0000_0000_0000 && p' < 0x8000_0000_0000_0000
    ensures var bought := Solo(c, s, FillTrade(Intent(k, Buy, q, p)), now).0;
            var sold := Solo(c, bought, FillTrade(Intent(k, Sell, q, p')), now).0;
            sold.cash == s.cash + q * (p' - p) && Position(sold, k) == Position(s, k)
  {
    FillBooks(c, s, Intent(k, Buy, q, p), now);
    FillBooks(c, Solo(c, s, FillTrade(Intent(k, Buy, q, p)), now).0, Intent(k, Sell, q, p'), now);
  }

  // ---------------------------------------------------------------- a new day

  /** What a check demands when nothing has been sent, filled or latched yet. */
  predicate FreshAllows(c: Config, s: Shared, i: Intent, now: real) {
    && HasToken(c, s, now)
    && (c.maxPosition.Some? ==> i.qty <= c.maxPosition.value)
    && (c.maxDailyLoss.Some? ==> c.maxDailyLoss.value >= 0)
    && (c.maxRatio.Some? ==> c.warmup > 0 || c.maxRatio.value >= 0.0)
  }

  lemma FreshCheck(c: Config, s: Shared, day: Shared, i: Intent, now: real)
    requires day == DayStarted(s)
    ensures Solo(c, day, CheckStart(i), now).1 == Some(Allow) <==> FreshAllows(c, s, i, now)
  {
    CheckAnswers(c, day, i, now);
    FreshLedgers(c, s, i);
  }

  /** After a start of day an order is allowed exactly when there is a token, its own quantity fits the cap, the floor does
      not demand a profit, and the ratio does not refuse before the first order; whatever the day before was. */
  lemma FreshDayAllowsIff(c: Config, s: Shared, i: Intent, now: real)
    ensures var day := Solo(c, s, DayOrders, now).0;
            day.bucket == s.bucket && (Solo(c, day, CheckStart(i), now).1 == Some(Allow) <==> FreshAllows(c, s, i, now))
  {
    SoloDay(c, s, now);
    FreshCheck(c, s, DayStarted(s), i, now);
  }

  lemma FreshLedgers(c: Config, s: Shared, i: Intent)
    ensures var day := DayStarted(s);
            && day.reason.None?
            && (KeepsPosition(c, day, i) <==> (c.maxPosition.Some? ==> i.qty <= c.maxPosition.value))
            && (AboveFloor(c, day) <==> (c.maxDailyLoss.Some? ==> c.maxDailyLoss.value >= 0))
            && (KeepsRatio(c, day) <==> (c.maxRatio.Some? ==> c.warmup > 0 || c.maxRatio.value >= 0.0))
  {
  }

  /** A reset clears the latch and nothing else. */
  lemma ResetKeepsLedgers(c: Config, s: Shared, now: real)
    ensures var r := Solo(c, s, ResetReason, now).0;
            && r.reason.None? && !r.halted && r.orders == s.orders && r.trades == s.trades && r.cash == s.cash
            && r.positions == s.positions && r.bucket == s.bucket && r.gaps == s.gaps
  {
    SoloReset(c, s, now);
  }

  // ---------------------------------------------------------------- gaps

  /** How many of the times lie at or after `cutoff`. */
  function HowMany(ts: seq<real>, cutoff: real): nat {
    if ts == [] then 0 else (if ts[0] >= cutoff then 1 else 0) + HowMany(ts[1..], cutoff)
  }

  lemma {:induction false} HowManySnoc(ts: seq<real>, t: real, cutoff: real)
    ensures HowMany(ts + [t], cutoff) == HowMany(ts, cutoff) + if t >= cutoff then 1 else 0
    decreases ts
  {
    if ts == [] {
      assert ts + [t] == [t] && [t][1..] == [];
    } else {
      assert (ts + [t])[1..] == ts[1..] + [t];
      HowManySnoc(ts[1..], t, cutoff);
    }
  }

  lemma {:induction false} RecentCounts(ts: seq<real>, cutoff: real)
    ensures |Recent(ts, cutoff)| == HowMany(ts, cutoff)
    decreases ts
  {
    if ts != [] {
      var n := |ts| - 1;
      RecentCounts(ts[..n], cutoff);
      HowManySnoc(ts[..n], ts[n], cutoff);
      assert ts[..n] + [ts[n]] == ts;
    }
  }

  /** Reporting a gap latches, if nothing has, exactly when it and the gaps no older than the window reach the threshold;
      a gap exactly as old as the window still counts. */
  lemma GapAnswers(c: Config, s: Shared, now: real)
    requires c.gapThreshold.Some?
    ensures var r, d := Solo(c, s, GapLog, now).0, Solo(c, s, GapLog, now).1;
            var n := HowMany(s.gaps, now - c.gapWindow) + 1;
            && |r.gaps| == n && r.gaps[n - 1] == now
            && r.reason == (if s.reason.None? && n >= c.gapThreshold.value then Some(FeedGap) else s.reason)
            && (d.Some? <==> n >= c.gapThreshold.value)
  {
    RecentCounts(s.gaps, now - c.gapWindow);
    SoloStep(c, s, GapLog, now);
    SoloLatch(c, LogGap(c, s, now).0, FeedGap, now);
  }

  // ---------------------------------------------------------------- the floor over a session

  /** Calls made one after the other. */
  ghost predicate IsHistory(c: Config, ss: seq<Shared>, ops: seq<Op>, times: seq<real>) {
    && |ss| == |ops| + 1 && |times| == |ops|
    && forall k :: 0 <= k < |ops| ==> ss[k + 1] == After(c, ss[k], ops[k], times[k])
  }

  function After(c: Config, s: Shared, op: Op, now: real): Shared {
    Solo(c, s, EntryOf(op), now).0
  }

  /** Neither a fill nor a start of day touches the cash. */
  lemma CashMoves(c: Config, s: Shared, op: Op, now: real)
    requires !op.Fill? && !op.Day?
    ensures After(c, s, op, now).cash == s.cash
  {
    match op
    case Check(i) => CheckAnswers(c, s, i, now);
    case Gap => GapAlone(c, s, now);
    case Sample => SoloStep(c, s, GapPrune, now);
    case Halt => SoloLatch(c, s, Manual, now);
    case Reset => SoloReset(c, s, now);
  }

  lemma GapAlone(c: Config, s: Shared, now: real)
    ensures var r := Solo(c, s, GapLog, now).0;
            r == s.(gaps := r.gaps, reason := r.reason, halted := r.halted) && (s.reason.Some? ==> r.reason == s.reason)
  {
    SoloStep(c, s, GapLog, now);
    SoloLatch(c, LogGap(c, s, now).0, FeedGap, now);
  }

  /** Only a reset or a start of day clears the slot. */
  lemma ReasonStays(c: Config, s: Shared, op: Op, now: real)
    requires s.reason.Some? && !op.Reset? && !op.Day?
    ensures After(c, s, op, now).reason == s.reason
  {
    match op
    case Check(i) => CheckAnswers(c, s, i, now);
    case Fill(i) => FillBooks(c, s, i, now);
    case Gap => GapAlone(c, s, now);
    case Sample => SoloStep(c, s, GapPrune, now);
    case Halt => SoloLatch(c, s, Manual, now);
  }

  /** A fill at `m` brings the cash back above the floor. */
  predicate Recovers(c: Config, ss: seq<Shared>, ops: seq<Op>, m: nat)
    requires m < |ops| && |ss| == |ops| + 1
  {
    ops[m].Fill? && !AboveFloor(c, ss[m]) && AboveFloor(c, ss[m + 1])
  }

  lemma {:induction false} RecoveryNeedsFill(c: Config, ss: seq<Shared>, ops: seq<Op>, times: seq<real>, i: nat, j: nat)
      returns (m: nat)
    requires IsHistory(c, ss, ops, times) && i <= j <= |ops| && !AboveFloor(c, ss[i]) && AboveFloor(c, ss[j])
    requires forall k :: i <= k < j ==> !ops[k].Day?
    ensures i <= m < j && Recovers(c, ss, ops, m)
    decreases j
  {
    if AboveFloor(c, ss[j - 1]) {
      m := RecoveryNeedsFill(c, ss, ops, times, i, j - 1);
    } else {
      m := j - 1;
      if !ops[m].Fill? {
        CashMoves(c, ss[m], ops[m], times[m]);
      }
    }
  }

  lemma {:induction false} ReasonHolds(c: Config, ss: seq<Shared>, ops: seq<Op>, times: seq<real>, i: nat, j: nat)
    requires IsHistory(c, ss, ops, times) && i <= j <= |ops| && ss[i].reason.Some?
    requires forall k :: i <= k < j ==> !ops[k].Day? && !ops[k].Reset?
    ensures ss[j].reason == ss[i].reason
    decreases j
  {
    if i < j {
      ReasonHolds(c, ss, ops, times, i, j - 1);
      ReasonStays(c, ss[j - 1], ops[j - 1], times[j - 1]);
    }
  }

  lemma CheckedBelowNeedsReset(
    c: Config, ss: seq<Shared>, ops: seq<Op>, times: seq<real>, k: nat, j: nat) returns (m: nat)
    requires IsHistory(c, ss, ops, times) && k < j < |ops| && ops[k].Check? && !AboveFloor(c, ss[k])
    requires forall m :: k <= m < j ==> !ops[m].Day?
    requires ss[j].reason.None?
    ensures k < m < j && ops[m].Reset?
  {
    CheckAnswers(c, ss[k], ops[k].i, times[k]);
    if forall m :: k < m < j ==> !ops[m].Reset? {
      ReasonHolds(c, ss, ops, times, k + 1, j);
    }
    m :| k < m < j && ops[m].Reset?;
  }

  /** Once the day's loss has passed the floor, and until a start of day, an order is allowed only after a fill has
      brought the cash back, and only after a reset has followed every check made below the floor. */
  lemma FloorHolds(c: Config, ss: seq<Shared>, ops: seq<Op>, times: seq<real>, i: nat, j: nat)
    requires IsHistory(c, ss, ops, times) && i <= j < |ops| && !AboveFloor(c, ss[i])
    requires forall m :: i <= m < j ==> !ops[m].Day?
    requires ops[j].Check? && Solo(c, ss[j], EntryOf(ops[j]), times[j]).1 == Some(Allow)
    ensures exists m :: i <= m < j && Recovers(c, ss, ops, m)
    ensures forall k :: i <= k < j && ops[k].Check? && !AboveFloor(c, ss[k]) ==> exists m :: k < m < j && ops[m].Reset?
  {
    CheckAnswers(c, ss[j], ops[j].i, times[j]);
    var m := RecoveryNeedsFill(c, ss, ops, times, i, j);
    forall k | i <= k < j && ops[k].Check? && !AboveFloor(c, ss[k])
      ensures exists m :: k < m < j && ops[m].Reset?
    {
      var r := CheckedBelowNeedsReset(c, ss, ops, times, k, j);
    }
  }

  // ---------------------------------------------------------------- the floor under concurrent calls

  /** A check that has been refused, or has still to ask the floor. */
  predicate NotPastFloor(pc: Pc) {
    || pc.CheckStart? || pc.CheckRate? || pc.CheckPosition? || pc.CheckLoss? || pc.Latching?
    || (pc.Done? && pc.decision.Some? && pc.decision.value.Block?)
  }

  lemma FloorStep(c: Config, w: World, l: Label, v: World, t: nat)
    requires Step(c, w, l, v) && t in w.calls && NotPastFloor(w.calls[t]) && !AboveFloor(c, w.shared)
    requires !(l.Call? && l.t == t)
    ensures t in v.calls && NotPastFloor(v.calls[t])
  {
  }

  /** In every interleaving, a check that begins below the floor is not allowed while the cash stays there. */
  lemma {:induction false} FloorBlocks(
    c: Config, ws: seq<World>, ls: seq<Label>, a: nat, k: nat, t: nat, intent: Intent)
    requires IsRun(c, ws, ls) && a < k <= |ls| && ls[a] == Call(t, CheckStart(intent))
    requires forall j :: a < j < k ==> !AboveFloor(c, ws[j].shared) && !(ls[j].Call? && ls[j].t == t)
    ensures t in ws[k].calls && NotPastFloor(ws[k].calls[t]) && ws[k].calls[t] != Done(Some(Allow))
    decreases k
  {
    if a == k - 1 {
      assert StepAt(c, ws, ls, a);
      CallBegins(c, ws[a], ls[a], ws[k]);
    } else {
      FloorBlocks(c, ws, ls, a, k - 1, t, intent);
      assert StepAt(c, ws, ls, k - 1);
      FloorStep(c, ws[k - 1], ls[k - 1], ws[k], t);
    }
  }
}

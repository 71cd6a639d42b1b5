/** Every interleaving of concurrent breaker calls (flow/src/circuit_breaker.rs): the latch, the token bucket, the
    position and cash ledgers and the gap log. */
module BreakerRuns {
  import opened Events
  import opened Breaker

  datatype World = World(shared: Shared, calls: map<nat, Pc>)

  /** A thread begins a public call, or takes the next step of the one it is in. */
  datatype Label = Call(t: nat, pc: Pc) | Run(t: nat, now: real)

  predicate Running(w: World, t: nat) {
    t in w.calls && !w.calls[t].Done?
  }

  ghost predicate Step(c: Config, w: World, l: Label, v: World) {
    match l
    case Call(t, pc) => Entry(pc) && !Running(w, t) && v == w.(calls := w.calls[t := pc])
    case Run(t, now) =>
      Running(w, t) && v == World(Advance(c, w.shared, w.calls[t], now).0,
                                  w.calls[t := Advance(c, w.shared, w.calls[t], now).1])
  }

  ghost predicate IsRun(c: Config, ws: seq<World>, ls: seq<Label>) {
    |ws| == |ls| + 1 && forall k :: 0 <= k < |ls| ==> StepAt(c, ws, ls, k)
  }

  ghost predicate StepAt(c: Config, ws: seq<World>, ls: seq<Label>, k: nat)
    requires k < |ls| && k + 1 < |ws|
  {
    Step(c, ws[k], ls[k], ws[k + 1])
  }

  lemma RunPrefix(c: Config, ws: seq<World>, ls: seq<Label>, n: nat)
    requires IsRun(c, ws, ls) && n <= |ls|
    ensures IsRun(c, ws[..n + 1], ls[..n])
  {
    var xs, ys := ws[..n + 1], ls[..n];
    forall k | 0 <= k < n
      ensures StepAt(c, xs, ys, k)
    {
      assert StepAt(c, ws, ls, k);
    }
  }

  /** What step `l` executes; a call only begins. */
  function At(w: World, l: Label): Pc {
    if l.Run? && l.t in w.calls then w.calls[l.t] else Done(None)
  }

  ghost predicate NoReset(ws: seq<World>, ls: seq<Label>, i: nat, k: nat)
    requires k <= |ls| <= |ws|
  {
    forall j :: i <= j < k ==> !At(ws[j], ls[j]).ResetReason?
  }

  // ---------------------------------------------------------------- the latch

  lemma StepKeepsReason(c: Config, w: World, l: Label, v: World)
    requires Step(c, w, l, v) && w.shared.reason.Some? && !At(w, l).ResetReason?
    ensures v.shared.reason == w.shared.reason
  {
  }

  /** The first latched reason stays until a reset clears the slot, whatever else is in flight. */
  lemma {:induction false} LatchHolds(c: Config, ws: seq<World>, ls: seq<Label>, i: nat, k: nat)
    requires IsRun(c, ws, ls) && i <= k <= |ls| && ws[i].shared.reason.Some? && NoReset(ws, ls, i, k)
    ensures ws[k].shared.reason == ws[i].shared.reason
    decreases k
  {
    if i < k {
      assert !At(ws[k - 1], ls[k - 1]).ResetReason?;
      LatchHolds(c, ws, ls, i, k - 1);
      assert StepAt(c, ws, ls, k - 1);
      StepKeepsReason(c, ws[k - 1], ls[k - 1], ws[k]);
    }
  }

  predicate Blocking(w: World, t: nat, i: Intent, r: HaltReason) {
    t in w.calls && (w.calls[t] == CheckStart(i) || w.calls[t] == Done(Some(Block(r))))
  }

  lemma StepKeepsBlocking(c: Config, w: World, l: Label, v: World, t: nat, i: Intent, r: HaltReason)
    requires Step(c, w, l, v) && w.shared.reason == Some(r) && Blocking(w, t, i, r) && !(l.Call? && l.t == t)
    ensures Blocking(v, t, i, r)
  {
  }

  lemma CallBegins(c: Config, w: World, l: Label, v: World)
    requires Step(c, w, l, v) && l.Call?
    ensures l.t in v.calls && v.calls[l.t] == l.pc
  {
  }

  /** Fail closed: a check that begins once a reason `r` is latched, with no reset clearing the slot meanwhile, has
      either not read the slot yet or has answered Block(r). It draws no token and reaches no later guard. */
  lemma {:induction false} FailClosed(
    c: Config, ws: seq<World>, ls: seq<Label>, i: nat, a: nat, k: nat, t: nat, intent: Intent, r: HaltReason)
    requires IsRun(c, ws, ls) && i <= a < k <= |ls|
    requires ws[i].shared.reason == Some(r) && NoReset(ws, ls, i, k)
    requires ls[a] == Call(t, CheckStart(intent))
    requires forall j :: a < j < k ==> !(ls[j].Call? && ls[j].t == t)
    ensures Blocking(ws[k], t, intent, r)
    decreases k
  {
    if a == k - 1 {
      assert StepAt(c, ws, ls, a);
      CallBegins(c, ws[a], ls[a], ws[k]);
    } else {
      FailClosed(c, ws, ls, i, a, k - 1, t, intent, r);
      LatchHolds(c, ws, ls, i, k - 1);
      assert StepAt(c, ws, ls, k - 1);
      StepKeepsBlocking(c, ws[k - 1], ls[k - 1], ws[k], t, intent, r);
    }
  }

  /** While a reason stays latched, the `halted` flag is down exactly when some reset lowered it. */
  lemma {:induction false} HaltedIff(c: Config, ws: seq<World>, ls: seq<Label>, i: nat, k: nat)
    requires IsRun(c, ws, ls) && i <= k <= |ls| && NoReset(ws, ls, i, k)
    requires ws[i].shared.reason.Some? && ws[i].shared.halted
    ensures ws[k].shared.halted <==> forall j :: i <= j < k ==> !At(ws[j], ls[j]).ResetHalted?
    decreases k
  {
    if i < k {
      HaltedIff(c, ws, ls, i, k - 1);
      LatchHolds(c, ws, ls, i, k - 1);
      assert StepAt(c, ws, ls, k - 1);
      HaltedStep(c, ws[k - 1], ls[k - 1], ws[k]);
    }
  }

  lemma HaltedStep(c: Config, w: World, l: Label, v: World)
    requires Step(c, w, l, v) && w.shared.reason.Some? && !At(w, l).ResetReason?
    ensures v.shared.halted == (w.shared.halted && !At(w, l).ResetHalted?)
  {
  }

  ghost predicate ResetPending(w: World) {
    exists t :: t in w.calls && w.calls[t] == ResetHalted
  }

  lemma PendingStep(c: Config, w: World, l: Label, v: World)
    requires Step(c, w, l, v) && (w.shared.halted ==> w.shared.reason.Some? || ResetPending(w))
    ensures v.shared.halted ==> v.shared.reason.Some? || ResetPending(v)
  {
    if At(w, l).ResetReason? {
      assert v.calls[l.t] == ResetHalted;
    } else if v.shared.halted && w.shared.reason.None? && v.shared.reason.None? {
      var t :| t in w.calls && w.calls[t] == ResetHalted;
      assert v.calls[t] == ResetHalted;
    }
  }

  /** A raised flag means a latched reason, or a reset between its two steps. */
  lemma {:induction false} HaltedMeansLatched(c: Config, ws: seq<World>, ls: seq<Label>, start: real)
    requires IsRun(c, ws, ls) && ws[0] == World(Initial(c, start), map[])
    ensures var w := ws[|ls|]; w.shared.halted ==> w.shared.reason.Some? || ResetPending(w)
    decreases ls
  {
    if ls != [] {
      var n := |ls| - 1;
      RunPrefix(c, ws, ls, n);
      HaltedMeansLatched(c, ws[..n + 1], ls[..n], start);
      assert StepAt(c, ws, ls, n);
      PendingStep(c, ws[n], ls[n], ws[n + 1]);
    }
  }

  /** The converse fails: a halt that lands between the two steps of a reset leaves the reason latched and the flag
      down, so the breaker blocks every order while it reports not being halted. */
  lemma ResetRacesHalt(c: Config, s: Shared) returns (ws: seq<World>, ls: seq<Label>)
    ensures IsRun(c, ws, ls) && ws[0] == World(s, map[]) && |ls| == 5
    ensures ws[5].shared.reason == Some(Manual) && !ws[5].shared.halted
  {
    var clear, done := s.(reason := None), Done(Some(Block(Manual)));
    var latched := clear.(reason := Some(Manual), halted := true);
    var w0, w1 := World(s, map[]), World(s, map[0 := ResetReason]);
    var w2 := World(s, map[0 := ResetReason, 1 := Latching(Manual)]);
    var w3 := World(clear, map[0 := ResetHalted, 1 := Latching(Manual)]);
    var w4 := World(latched, map[0 := ResetHalted, 1 := done]);
    var w5 := World(latched.(halted := false), map[0 := Done(None), 1 := done]);
    assert Step(c, w0, Call(0, ResetReason), w1) && Step(c, w1, Call(1, Latching(Manual)), w2);
    assert Step(c, w2, Run(0, 0.0), w3) && Step(c, w3, Run(1, 0.0), w4) && Step(c, w4, Run(0, 0.0), w5);
    ls := [Call(0, ResetReason), Call(1, Latching(Manual)), Run(0, 0.0), Run(1, 0.0), Run(0, 0.0)];
    ws := [w0, w1, w2, w3, w4, w5];
  }

  // ---------------------------------------------------------------- the token bucket

  predicate Full(b: Bucket) {
    0.0 <= b.tokens <= b.capacity
  }

  /** `n` tokens drawn so far at times in [lo, hi]: what the refill since `lo` can have paid for. */
  predicate Metered(b: Bucket, rate: real, lo: real, hi: real, n: nat) {
    && Full(b)
    && (b.last < lo ==> n == 0)
    && (lo <= b.last <= hi ==> n as real + b.tokens <= b.capacity + rate * (b.last - lo))
    && (hi < b.last ==> n as real <= b.capacity + rate * (hi - lo))
  }

  lemma RefillSplits(rate: real, lo: real, mid: real, hi: real)
    requires rate >= 0.0 && lo <= mid <= hi
    ensures rate * (hi - lo) == rate * (mid - lo) + rate * (hi - mid)
    ensures rate * (hi - mid) >= 0.0 && (hi - mid) * rate == rate * (hi - mid)
  {
  }

  lemma TakeKeepsFull(b: Bucket, rate: real, now: real)
    requires Full(b) && rate >= 0.0
    ensures var t := TryTake(b, rate, now); Full(t.0) && t.0.capacity == b.capacity && t.0.last == now
    ensures var t := TryTake(b, rate, now); t.0.tokens + (if t.1 then 1.0 else 0.0) <= b.capacity
  {
    if now > b.last {
      RefillSplits(rate, b.last, b.last, now);
    }
  }

  lemma TakePays(b: Bucket, rate: real, now: real)
    requires Full(b) && rate >= 0.0 && b.last <= now
    ensures var t := TryTake(b, rate, now); t.0.tokens + (if t.1 then 1.0 else 0.0) <= b.tokens + rate * (now - b.last)
  {
    RefillSplits(rate, b.last, b.last, now);
  }

  /** The account inside the window: `g` tokens drawn, `earned` refilled, on top of what was `spent` for before. */
  lemma AccountCarries(n: nat, g: nat, tokens: real, left: real, cap: real, spent: real, earned: real, total: real)
    requires n as real + tokens <= cap + spent && left + g as real <= tokens + earned && total == spent + earned
    ensures (n + g) as real + left <= cap + total
  {
  }

  /** The account when the window opens, or has closed. */
  lemma AccountOpens(g: nat, left: real, cap: real, total: real)
    requires left + g as real <= cap && total >= 0.0
    ensures (0 + g) as real + left <= cap + total
  {
  }

  lemma AccountCloses(n: nat, tokens: real, cap: real, spent: real, rest: real, total: real)
    requires n as real + tokens <= cap + spent && tokens >= 0.0 && rest >= 0.0 && total == spent + rest
    ensures n as real <= cap + total
  {
  }

  lemma TakeBeforeWindow(b: Bucket, r: Bucket, g: nat, rate: real, lo: real, hi: real)
    requires b.last < lo <= hi && rate >= 0.0 && Full(r) && r.capacity == b.capacity && r.tokens + g as real <= b.capacity
    ensures Metered(r, rate, lo, hi, if lo <= r.last <= hi then g else 0)
  {
    RefillSplits(rate, lo, lo, hi);
    if lo <= r.last <= hi {
      RefillSplits(rate, lo, lo, r.last);
      AccountOpens(g, r.tokens, r.capacity, rate * (r.last - lo));
    } else if hi < r.last {
      AccountOpens(0, r.tokens, r.capacity, rate * (hi - lo));
    }
  }

  lemma TakeInWindow(b: Bucket, r: Bucket, g: nat, rate: real, lo: real, hi: real, n: nat)
    requires Metered(b, rate, lo, hi, n) && lo <= b.last <= hi && b.last <= r.last && rate >= 0.0
    requires Full(r) && r.capacity == b.capacity && r.tokens + g as real <= b.tokens + rate * (r.last - b.last)
    ensures Metered(r, rate, lo, hi, if r.last <= hi then n + g else n)
  {
    if r.last <= hi {
      RefillSplits(rate, lo, b.last, r.last);
      AccountCarries(n, g, b.tokens, r.tokens, b.capacity, rate * (b.last - lo), rate * (r.last - b.last), rate * (r.last - lo));
    } else {
      RefillSplits(rate, lo, b.last, hi);
      AccountCloses(n, b.tokens, b.capacity, rate * (b.last - lo), rate * (hi - b.last), rate * (hi - lo));
    }
  }

  lemma TakeMetered(b: Bucket, rate: real, now: real, lo: real, hi: real, n: nat)
    requires Metered(b, rate, lo, hi, n) && rate >= 0.0 && b.last <= now && lo <= hi
    ensures var t := TryTake(b, rate, now); Metered(t.0, rate, lo, hi, n + if t.1 && lo <= now <= hi then 1 else 0)
  {
    var (r, granted) := TryTake(b, rate, now);
    TakeKeepsFull(b, rate, now);
    TakePays(b, rate, now);
    if b.last < lo {
      TakeBeforeWindow(b, r, if granted then 1 else 0, rate, lo, hi);
    } else if b.last <= hi {
      TakeInWindow(b, r, if granted then 1 else 0, rate, lo, hi, n);
    }
  }

  /** The step drew a token at a time in [lo, hi]. */
  predicate Drew(w: World, l: Label, v: World, lo: real, hi: real) {
    l.Run? && At(w, l).CheckRate? && l.t in v.calls && v.calls[l.t].CheckPosition? && lo <= l.now <= hi
  }

  function Draws(ws: seq<World>, ls: seq<Label>, lo: real, hi: real): nat
    requires |ws| == |ls| + 1
  {
    if ls == [] then 0
    else
      var n := |ls| - 1;
      Draws(ws[..n + 1], ls[..n], lo, hi) + if Drew(ws[n], ls[n], ws[n + 1], lo, hi) then 1 else 0
  }

  /** The clock that the calls read never steps back. */
  ghost predicate Monotone(ls: seq<Label>, start: real) {
    && (forall j :: 0 <= j < |ls| && ls[j].Run? ==> start <= ls[j].now)
    && (forall j, k :: 0 <= j < k < |ls| && ls[j].Run? && ls[k].Run? ==> ls[j].now <= ls[k].now)
  }

  /** The bucket's clock was last set by some past step, or at the start. */
  ghost predicate ClockBehind(b: Bucket, ls: seq<Label>, start: real) {
    b.last == start || exists j :: 0 <= j < |ls| && ls[j].Run? && ls[j].now == b.last
  }

  lemma BucketStep(c: Config, w: World, l: Label, v: World)
    requires Step(c, w, l, v) && c.maxOrdersPerSec.Some?
    ensures if At(w, l).CheckRate? then
              var t := TryTake(w.shared.bucket, c.maxOrdersPerSec.value as real, l.now);
              v.shared.bucket == t.0 && (t.1 <==> v.calls[l.t].CheckPosition?)
            else v.shared.bucket == w.shared.bucket
  {
  }

  /** The bucket after a run: its window account, its clock and its capacity. */
  ghost predicate Accounted(b: Bucket, rate: real, lo: real, hi: real, n: nat, ls: seq<Label>, start: real) {
    Metered(b, rate, lo, hi, n) && ClockBehind(b, ls, start) && b.capacity == rate
  }

  lemma ClockIsBehind(b: Bucket, ls: seq<Label>, l: Label, start: real)
    requires l.Run? && Monotone(ls + [l], start) && ClockBehind(b, ls, start)
    ensures b.last <= l.now
  {
    assert (ls + [l])[|ls|] == l;
    if b.last != start {
      var j :| 0 <= j < |ls| && ls[j].Run? && ls[j].now == b.last;
      assert (ls + [l])[j] == ls[j];
    }
  }

  lemma ClockStays(b: Bucket, ls: seq<Label>, l: Label, start: real)
    requires ClockBehind(b, ls, start)
    ensures ClockBehind(b, ls + [l], start)
  {
    if b.last != start {
      var j :| 0 <= j < |ls| && ls[j].Run? && ls[j].now == b.last;
      assert (ls + [l])[j] == ls[j];
    }
  }

  lemma ClockAdvances(b: Bucket, ls: seq<Label>, l: Label, start: real)
    requires l.Run? && b.last == l.now
    ensures ClockBehind(b, ls + [l], start)
  {
    assert (ls + [l])[|ls|] == l;
  }

  lemma DrawAccounted(b: Bucket, rate: real, lo: real, hi: real, n: nat, ls: seq<Label>, l: Label, start: real)
    requires Accounted(b, rate, lo, hi, n, ls, start) && rate >= 0.0 && lo <= hi && l.Run? && Monotone(ls + [l], start)
    ensures var t := TryTake(b, rate, l.now);
            Accounted(t.0, rate, lo, hi, n + if t.1 && lo <= l.now <= hi then 1 else 0, ls + [l], start)
  {
    ClockIsBehind(b, ls, l, start);
    TakeMetered(b, rate, l.now, lo, hi, n);
    ClockAdvances(TryTake(b, rate, l.now).0, ls, l, start);
  }

  lemma StepAccounted(c: Config, w: World, l: Label, v: World, n: nat, ls: seq<Label>, start: real, lo: real, hi: real)
    requires Step(c, w, l, v) && c.maxOrdersPerSec.Some? && lo <= hi && Monotone(ls + [l], start)
    requires Accounted(w.shared.bucket, c.maxOrdersPerSec.value as real, lo, hi, n, ls, start)
    ensures Accounted(v.shared.bucket, c.maxOrdersPerSec.value as real, lo, hi,
                      n + if Drew(w, l, v, lo, hi) then 1 else 0, ls + [l], start)
  {
    BucketStep(c, w, l, v);
    if At(w, l).CheckRate? {
      DrawAccounted(w.shared.bucket, c.maxOrdersPerSec.value as real, lo, hi, n, ls, l, start);
    } else {
      ClockStays(w.shared.bucket, ls, l, start);
    }
  }

  lemma {:induction false} RunMetered(c: Config, ws: seq<World>, ls: seq<Label>, start: real, lo: real, hi: real)
    requires IsRun(c, ws, ls) && ws[0] == World(Initial(c, start), map[]) && Monotone(ls, start)
    requires c.maxOrdersPerSec.Some? && lo <= hi
    ensures Accounted(ws[|ls|].shared.bucket, c.maxOrdersPerSec.value as real, lo, hi, Draws(ws, ls, lo, hi), ls, start)
    decreases ls
  {
    if ls == [] {
      RateNonNegative(c.maxOrdersPerSec.value as real, lo, hi, start);
    } else {
      var n := |ls| - 1;
      RunPrefix(c, ws, ls, n);
      RunMetered(c, ws[..n + 1], ls[..n], start, lo, hi);
      assert StepAt(c, ws, ls, n);
      assert ls == ls[..n] + [ls[n]];
      StepAccounted(c, ws[n], ls[n], ws[n + 1], Draws(ws[..n + 1], ls[..n], lo, hi), ls[..n], start, lo, hi);
    }
  }

  lemma RateNonNegative(rate: real, lo: real, hi: real, start: real)
    requires rate >= 0.0 && lo <= hi
    ensures lo <= start <= hi ==> rate * (start - lo) >= 0.0
    ensures rate * (hi - lo) >= 0.0
  {
  }

  /** Bucket capacity plus the refill over the window; the capacity is one second's worth of orders. */
  function Budget(rate: real, lo: real, hi: real): real {
    rate + rate * (hi - lo)
  }

  lemma MeteredBound(b: Bucket, rate: real, lo: real, hi: real, n: nat)
    requires Metered(b, rate, lo, hi, n) && rate >= 0.0 && lo <= hi && b.capacity == rate
    ensures n as real <= Budget(rate, lo, hi) && Full(b)
  {
    RateNonNegative(rate, lo, hi, b.last);
    if b.last < lo {
      assert n as real == 0.0;
    } else if b.last <= hi {
      RefillSplits(rate, lo, b.last, hi);
      var spent, left, whole := rate * (b.last - lo), rate * (hi - b.last), rate * (hi - lo);
      assert whole == spent + left && left >= 0.0;
      assert n as real <= rate + spent;
      assert Budget(rate, lo, hi) == rate + whole;
    }
  }

  /** In any window [lo, hi], across resets and days, at most capacity + rate * (hi - lo) tokens are drawn. */
  lemma DrawsBounded(c: Config, ws: seq<World>, ls: seq<Label>, start: real, lo: real, hi: real)
    requires IsRun(c, ws, ls) && ws[0] == World(Initial(c, start), map[]) && Monotone(ls, start)
    requires c.maxOrdersPerSec.Some? && lo <= hi
    ensures Draws(ws, ls, lo, hi) as real <= Budget(c.maxOrdersPerSec.value as real, lo, hi)
    ensures Full(ws[|ls|].shared.bucket)
  {
    RunMetered(c, ws, ls, start, lo, hi);
    MeteredBound(ws[|ls|].shared.bucket, c.maxOrdersPerSec.value as real, lo, hi, Draws(ws, ls, lo, hi));
  }

  // ---------------------------------------------------------------- allowed orders spend tokens

  /** A check past the rate limit, holding a token drawn in [lo, hi]. */
  predicate Holds(pc: Pc, lo: real, hi: real) {
    (pc.CheckPosition? || pc.CheckLoss? || pc.CheckOrders? || pc.CheckTrades? || pc.CheckCount?) && lo <= pc.at <= hi
  }

  function Holders(w: World, lo: real, hi: real): set<nat> {
    set t | t in w.calls && Holds(w.calls[t], lo, hi)
  }

  /** The step answers Allow to a check whose token was drawn in [lo, hi]. */
  predicate Allows(w: World, l: Label, v: World, lo: real, hi: real) {
    l.Run? && l.t in v.calls && v.calls[l.t] == Done(Some(Allow)) && Holds(At(w, l), lo, hi)
  }

  /** Orders allowed on a token drawn in [lo, hi]. */
  function Allowed(ws: seq<World>, ls: seq<Label>, lo: real, hi: real): nat
    requires |ws| == |ls| + 1
  {
    if ls == [] then 0
    else
      var n := |ls| - 1;
      Allowed(ws[..n + 1], ls[..n], lo, hi) + if Allows(ws[n], ls[n], ws[n + 1], lo, hi) then 1 else 0
  }

  /** Only the check that counts the order answers Allow, and it holds the token it drew. */
  lemma AllowIsCounted(c: Config, w: World, l: Label, v: World)
    requires Step(c, w, l, v) && l.Run?
    ensures v.calls[l.t] == Done(Some(Allow)) <==> At(w, l).CheckCount?
    ensures v.calls[l.t] == Done(Some(Allow)) ==> Holds(At(w, l), At(w, l).at, At(w, l).at)
  {
  }

  lemma HoldersStep(c: Config, w: World, l: Label, v: World, lo: real, hi: real)
    requires Step(c, w, l, v)
    ensures Holders(v, lo, hi) - {l.t} == Holders(w, lo, hi) - {l.t}
    ensures l.t in Holders(v, lo, hi) ==> (l.t in Holders(w, lo, hi) && !Allows(w, l, v, lo, hi)) || Drew(w, l, v, lo, hi)
    ensures Allows(w, l, v, lo, hi) ==> l.t in Holders(w, lo, hi)
  {
    if l.Run? {
      AllowIsCounted(c, w, l, v);
    }
  }

  lemma HoldersCount(a: set<nat>, b: set<nat>, t: nat)
    requires a - {t} == b - {t}
    ensures |a| + (if t in b then 1 else 0) == |b| + (if t in a then 1 else 0)
  {
    assert a == (a - {t}) + if t in a then {t} else {};
    assert b == (b - {t}) + if t in b then {t} else {};
  }

  lemma {:induction false} AllowedSpendTokens(c: Config, ws: seq<World>, ls: seq<Label>, start: real, lo: real, hi: real)
    requires IsRun(c, ws, ls) && ws[0] == World(Initial(c, start), map[])
    ensures Allowed(ws, ls, lo, hi) + |Holders(ws[|ls|], lo, hi)| <= Draws(ws, ls, lo, hi)
    decreases ls
  {
    if ls == [] {
      assert Holders(ws[0], lo, hi) == {};
    } else {
      var n := |ls| - 1;
      RunPrefix(c, ws, ls, n);
      AllowedSpendTokens(c, ws[..n + 1], ls[..n], start, lo, hi);
      assert StepAt(c, ws, ls, n);
      HoldersStep(c, ws[n], ls[n], ws[n + 1], lo, hi);
      HoldersCount(Holders(ws[n], lo, hi), Holders(ws[n + 1], lo, hi), ls[n].t);
    }
  }

  /** In every interleaving, resets and start-of-day included, the orders allowed on a token drawn in a window of
      length d number at most capacity + rate * d. */
  lemma OrdersBounded(c: Config, ws: seq<World>, ls: seq<Label>, start: real, lo: real, hi: real)
    requires IsRun(c, ws, ls) && ws[0] == World(Initial(c, start), map[]) && Monotone(ls, start)
    requires c.maxOrdersPerSec.Some? && lo <= hi
    ensures Allowed(ws, ls, lo, hi) as real <= Budget(c.maxOrdersPerSec.value as real, lo, hi)
  {
    DrawsBounded(c, ws, ls, start, lo, hi);
    AllowedSpendTokens(c, ws, ls, start, lo, hi);
  }

  // ---------------------------------------------------------------- positions, cash, gaps

  /** What a step adds to the position in instrument `k`. */
  function Moves(pc: Pc, k: U32): int {
    if pc.FillPosition? && pc.i.instrument == k then Signed(pc.i) else 0
  }

  function MovesOf(ws: seq<World>, ls: seq<Label>, from: nat, to: nat, k: U32): int
    requires from <= to <= |ls| <= |ws|
  {
    if from == to then 0 else MovesOf(ws, ls, from, to - 1, k) + Moves(At(ws[to - 1], ls[to - 1]), k)
  }

  function Pays(pc: Pc): int {
    if pc.FillCash? then CashOf(pc.i) else 0
  }

  function PaysOf(ws: seq<World>, ls: seq<Label>, from: nat, to: nat): int
    requires from <= to <= |ls| <= |ws|
  {
    if from == to then 0 else PaysOf(ws, ls, from, to - 1) + Pays(At(ws[to - 1], ls[to - 1]))
  }

  lemma PositionStep(c: Config, w: World, l: Label, v: World, k: U32)
    requires Step(c, w, l, v) && !At(w, l).DayPositions?
    ensures Position(v.shared, k) == Position(w.shared, k) + Moves(At(w, l), k)
  {
  }

  lemma CashStep(c: Config, w: World, l: Label, v: World)
    requires Step(c, w, l, v) && !At(w, l).DayCash?
    ensures v.shared.cash == w.shared.cash + Pays(At(w, l))
  {
  }

  /** From the step that cleared the positions (or the first state), each position is the signed sum of the fills
      booked since, in every interleaving. */
  lemma {:induction false} PositionsAreFills(c: Config, ws: seq<World>, ls: seq<Label>, i: nat, j: nat, k: U32)
    requires IsRun(c, ws, ls) && i <= j <= |ls| && Position(ws[i].shared, k) == 0
    requires forall m :: i <= m < j ==> !At(ws[m], ls[m]).DayPositions?
    ensures Position(ws[j].shared, k) == MovesOf(ws, ls, i, j, k)
    decreases j
  {
    if i < j {
      PositionsAreFills(c, ws, ls, i, j - 1, k);
      assert StepAt(c, ws, ls, j - 1);
      PositionStep(c, ws[j - 1], ls[j - 1], ws[j], k);
    }
  }

  lemma {:induction false} CashIsFills(c: Config, ws: seq<World>, ls: seq<Label>, i: nat, j: nat)
    requires IsRun(c, ws, ls) && i <= j <= |ls| && ws[i].shared.cash == 0
    requires forall m :: i <= m < j ==> !At(ws[m], ls[m]).DayCash?
    ensures ws[j].shared.cash == PaysOf(ws, ls, i, j)
    decreases j
  {
    if i < j {
      CashIsFills(c, ws, ls, i, j - 1);
      assert StepAt(c, ws, ls, j - 1);
      CashStep(c, ws[j - 1], ls[j - 1], ws[j]);
    }
  }

  /** The times of the gaps recorded in steps `from` to `to`, oldest first. */
  function GapsOf(ws: seq<World>, ls: seq<Label>, from: nat, to: nat): seq<real>
    requires from <= to <= |ls| <= |ws|
  {
    if from == to then []
    else GapsOf(ws, ls, from, to - 1) + if At(ws[to - 1], ls[to - 1]).GapLog? then [ls[to - 1].now] else []
  }

  /** Pruning twice is pruning at the later cutoff. */
  lemma {:induction false} RecentTwice(ts: seq<real>, a: real, b: real)
    requires a <= b
    ensures Recent(Recent(ts, a), b) == Recent(ts, b)
  {
    if ts != [] {
      var n := |ts| - 1;
      RecentTwice(ts[..n], a, b);
      if ts[n] < a {
        assert Recent(ts, a) == Recent(ts[..n], a);
      } else {
        assert Recent(ts, a)[..|Recent(ts, a)| - 1] == Recent(ts[..n], a);
      }
    }
  }

  lemma RecentSnoc(ts: seq<real>, t: real, cutoff: real)
    requires t >= cutoff
    ensures Recent(ts + [t], cutoff) == Recent(ts, cutoff) + [t]
  {
    assert (ts + [t])[..|ts|] == ts;
  }

  /** The log is the whole history seen through some cutoff no later than `cutoff`. */
  ghost predicate LogIs(log: seq<real>, history: seq<real>, cutoff: real) {
    exists cut :: cut <= cutoff && log == Recent(history, cut)
  }

  lemma LogStep(c: Config, s: Shared, history: seq<real>, now: real)
    requires c.gapThreshold.Some? && c.gapWindow >= 0.0 && LogIs(s.gaps, history, now - c.gapWindow)
    ensures LogGap(c, s, now).0.gaps == Recent(history + [now], now - c.gapWindow)
  {
    var cut :| cut <= now - c.gapWindow && s.gaps == Recent(history, cut);
    RecentTwice(history, cut, now - c.gapWindow);
    RecentSnoc(history, now, now - c.gapWindow);
  }

  lemma PruneStep(log: seq<real>, history: seq<real>, cutoff: real)
    requires LogIs(log, history, cutoff)
    ensures Recent(log, cutoff) == Recent(history, cutoff) && LogIs(Recent(log, cutoff), history, cutoff)
  {
    var cut :| cut <= cutoff && log == Recent(history, cut);
    RecentTwice(history, cut, cutoff);
  }

  lemma LaterCutoff(log: seq<real>, history: seq<real>, cutoff: real, later: real)
    requires LogIs(log, history, cutoff) && cutoff <= later
    ensures LogIs(log, history, later)
  {
  }

  lemma LaterLog(history: seq<real>, cutoff: real, later: real)
    requires cutoff <= later
    ensures LogIs(Recent(history, cutoff), history, later)
  {
  }

  lemma GapFrame(c: Config, w: World, l: Label, v: World)
    requires Step(c, w, l, v) && !At(w, l).DayGaps?
    ensures v.shared.gaps == if At(w, l).GapLog? then LogGap(c, w.shared, l.now).0.gaps
                             else if At(w, l).GapPrune? then Recent(w.shared.gaps, l.now - c.gapWindow)
                             else w.shared.gaps
  {
  }

  /** Lazy pruning refines the whole history: on a clock that never steps back, the log holds the gaps since it was
      last cleared, less only some that are older than the window. */
  lemma {:induction false} GapLogIsHistory(c: Config, ws: seq<World>, ls: seq<Label>, i: nat, j: nat, now: real, start: real)
    requires IsRun(c, ws, ls) && i <= j <= |ls| && Monotone(ls, start) && ws[i].shared.gaps == []
    requires c.gapThreshold.Some? && c.gapWindow >= 0.0
    requires forall m :: i <= m < j ==> !At(ws[m], ls[m]).DayGaps? && (ls[m].Run? ==> ls[m].now <= now)
    ensures LogIs(ws[j].shared.gaps, GapsOf(ws, ls, i, j), now - c.gapWindow)
    decreases j
  {
    if i == j {
      assert [] == Recent([], now - c.gapWindow);
    } else {
      assert StepAt(c, ws, ls, j - 1);
      GapFrame(c, ws[j - 1], ls[j - 1], ws[j]);
      if At(ws[j - 1], ls[j - 1]).GapLog? {
        var at := ls[j - 1].now;
        GapLogIsHistory(c, ws, ls, i, j - 1, at, start);
        LogStep(c, ws[j - 1].shared, GapsOf(ws, ls, i, j - 1), at);
        LaterLog(GapsOf(ws, ls, i, j), at - c.gapWindow, now - c.gapWindow);
      } else if At(ws[j - 1], ls[j - 1]).GapPrune? {
        var at := ls[j - 1].now;
        GapLogIsHistory(c, ws, ls, i, j - 1, at, start);
        PruneStep(ws[j - 1].shared.gaps, GapsOf(ws, ls, i, j - 1), at - c.gapWindow);
        LaterCutoff(ws[j].shared.gaps, GapsOf(ws, ls, i, j - 1), at - c.gapWindow, now - c.gapWindow);
        assert GapsOf(ws, ls, i, j) == GapsOf(ws, ls, i, j - 1);
      } else {
        GapLogIsHistory(c, ws, ls, i, j - 1, now, start);
        assert GapsOf(ws, ls, i, j) == GapsOf(ws, ls, i, j - 1);
      }
    }
  }

  lemma SampleStep(c: Config, w: World, l: Label, v: World, history: seq<real>)
    requires Step(c, w, l, v) && At(w, l).GapPrune? && LogIs(w.shared.gaps, history, l.now - c.gapWindow)
    ensures v.shared.gaps == Recent(history, l.now - c.gapWindow)
  {
    GapFrame(c, w, l, v);
    PruneStep(w.shared.gaps, history, l.now - c.gapWindow);
  }

  lemma LogCall(c: Config, w: World, l: Label, v: World)
    requires Step(c, w, l, v) && At(w, l).GapLog?
    ensures l.t in v.calls && v.calls[l.t] == LogGap(c, w.shared, l.now).1
    ensures v.shared.gaps == LogGap(c, w.shared, l.now).0.gaps
  {
  }

  lemma LogLatches(c: Config, s: Shared, now: real)
    requires c.gapThreshold.Some?
    ensures LogGap(c, s, now).1 == Latching(FeedGap) <==> |LogGap(c, s, now).0.gaps| >= c.gapThreshold.value
  {
  }

  /** Since `i`, when the log was empty, nothing has cleared it. */
  ghost predicate LogSince(c: Config, ws: seq<World>, ls: seq<Label>, i: nat, j: nat, start: real) {
    && IsRun(c, ws, ls) && i <= j < |ls| && Monotone(ls, start) && ws[i].shared.gaps == []
    && c.gapThreshold.Some? && c.gapWindow >= 0.0
    && forall m :: i <= m < j ==> !At(ws[m], ls[m]).DayGaps?
  }

  lemma LogIsSince(c: Config, ws: seq<World>, ls: seq<Label>, i: nat, j: nat, start: real)
    requires LogSince(c, ws, ls, i, j, start) && ls[j].Run?
    ensures LogIs(ws[j].shared.gaps, GapsOf(ws, ls, i, j), ls[j].now - c.gapWindow)
  {
    GapLogIsHistory(c, ws, ls, i, j, ls[j].now, start);
  }

  /** A telemetry sample at time `now` finds exactly the gaps since the last clearing that lie within the window. */
  lemma SampleIsWindow(c: Config, ws: seq<World>, ls: seq<Label>, i: nat, j: nat, start: real)
    requires LogSince(c, ws, ls, i, j, start) && At(ws[j], ls[j]).GapPrune?
    ensures ws[j + 1].shared.gaps == Recent(GapsOf(ws, ls, i, j), ls[j].now - c.gapWindow)
  {
    LogIsSince(c, ws, ls, i, j, start);
    assert StepAt(c, ws, ls, j);
    SampleStep(c, ws[j], ls[j], ws[j + 1], GapsOf(ws, ls, i, j));
  }

  lemma LogHoldsWindow(c: Config, ws: seq<World>, ls: seq<Label>, i: nat, j: nat, start: real)
    requires LogSince(c, ws, ls, i, j, start) && At(ws[j], ls[j]).GapLog?
    ensures LogGap(c, ws[j].shared, ls[j].now).0.gaps == Recent(GapsOf(ws, ls, i, j + 1), ls[j].now - c.gapWindow)
  {
    LogIsSince(c, ws, ls, i, j, start);
    LogStep(c, ws[j].shared, GapsOf(ws, ls, i, j), ls[j].now);
    assert GapsOf(ws, ls, i, j + 1) == GapsOf(ws, ls, i, j) + [ls[j].now];
  }

  /** Reporting a gap at time `now` trips the breaker exactly when the gaps since the last clearing that lie within
      the window, this one included, reach the threshold. */
  lemma GapTripsIff(c: Config, ws: seq<World>, ls: seq<Label>, i: nat, j: nat, start: real)
    requires LogSince(c, ws, ls, i, j, start) && At(ws[j], ls[j]).GapLog?
    ensures ls[j].t in ws[j + 1].calls
    ensures ws[j + 1].calls[ls[j].t] == Latching(FeedGap)
            <==> |Recent(GapsOf(ws, ls, i, j + 1), ls[j].now - c.gapWindow)| >= c.gapThreshold.value
  {
    LogHoldsWindow(c, ws, ls, i, j, start);
    assert StepAt(c, ws, ls, j);
    LogCall(c, ws[j], ls[j], ws[j + 1]);
    LogLatches(c, ws[j].shared, ls[j].now);
  }
}

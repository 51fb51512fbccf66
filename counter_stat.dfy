/**
 * The event counter of a monitor (CounterStat.java): a lifetime count and three
 * decaying rate windows of one, five and fifteen minutes.
 *
 * A window is the counter's exponentially weighted moving average. Its `update(n)`
 * only accumulates `n` into `uncounted`; its `tick()`, run every five seconds,
 * turns the accumulated events into an instant rate (events per second over the
 * tick interval), seeds the rate with it on the first tick and otherwise moves the
 * rate a fraction `alpha` of the way towards it. Rates are kept per second, the
 * unit the counter's getters ask for.
 */
module Counters {

  /** Seconds between two ticks (CounterStat.start schedules `tick` every 5 seconds). */
  const TickSeconds: real := 5.0

  /** 1 - exp(-5/60/m) for windows of m = 1, 5 and 15 minutes, as doubles. */
  const OneMinuteAlpha: real := 0.07995558537067671
  const FiveMinuteAlpha: real := 0.01652854617838251
  const FifteenMinuteAlpha: real := 0.005540151995103271

  datatype Ewma = Ewma(alpha: real, uncounted: int, rate: real, initialized: bool)

  /** A window with a valid smoothing factor, nothing pending and no negative rate. */
  ghost predicate Sound(w: Ewma) {
    0.0 < w.alpha < 1.0 && w.uncounted >= 0 && w.rate >= 0.0
  }

  function NewEwma(alpha: real): (w: Ewma)
    ensures w.rate == 0.0 && w.uncounted == 0 && !w.initialized
  {
    Ewma(alpha, 0, 0.0, false)
  }

  /** `EWMA.update(n)`: accumulates only; the rate is unchanged. */
  function EwmaUpdate(w: Ewma, n: int): (r: Ewma)
    ensures r.uncounted == w.uncounted + n
    ensures r.rate == w.rate && r.alpha == w.alpha && r.initialized == w.initialized
  {
    w.(uncounted := w.uncounted + n)
  }

  /** `EWMA.tick()`. */
  function EwmaTick(w: Ewma): (r: Ewma)
    ensures r.uncounted == 0 && r.initialized && r.alpha == w.alpha
    ensures !w.initialized ==> r.rate == w.uncounted as real / TickSeconds
    ensures w.initialized && 0.0 < w.alpha < 1.0 ==>
      (r.rate - w.uncounted as real / TickSeconds) == (1.0 - w.alpha) * (w.rate - w.uncounted as real / TickSeconds)
  {
    var instantRate := w.uncounted as real / TickSeconds;
    if w.initialized then
      w.(uncounted := 0, rate := w.rate + w.alpha * (instantRate - w.rate))
    else
      w.(uncounted := 0, rate := instantRate, initialized := true)
  }

  /** `EWMA.rate(SECONDS)`: the rate in events per second, 0 until the first tick. */
  function EwmaRate(w: Ewma): (r: real)
    ensures Sound(w) ==> r >= 0.0
  {
    w.rate
  }

  /** A tick keeps a sound window sound: rates never become negative. */
  lemma TickKeepsSound(w: Ewma)
    requires Sound(w)
    ensures Sound(EwmaTick(w))
  {
    var i := w.uncounted as real / TickSeconds;
    if w.initialized {
      assert w.rate + w.alpha * (i - w.rate) == (1.0 - w.alpha) * w.rate + w.alpha * i;
      assert (1.0 - w.alpha) * w.rate >= 0.0;
      assert w.alpha * i >= 0.0;
    }
  }

  /** A window that has never ticked reports rate 0, whatever was accumulated. */
  lemma NoRateBeforeFirstTick(alpha: real, n: int)
    ensures EwmaRate(EwmaUpdate(NewEwma(alpha), n)) == 0.0
  {
  }

  /** The first tick after `n` events in one interval reports exactly n / 5 events per second. */
  lemma FirstTickSeeds(alpha: real, n: int)
    ensures EwmaRate(EwmaTick(EwmaUpdate(NewEwma(alpha), n))) == n as real / TickSeconds
  {
  }

  function Sum(ns: seq<int>): int {
    if ns == [] then 0 else ns[0] + Sum(ns[1..])
  }

  /** The window after the updates `ns`, in order. */
  function UpdateAll(w: Ewma, ns: seq<int>): Ewma
    decreases ns
  {
    if ns == [] then w else UpdateAll(EwmaUpdate(w, ns[0]), ns[1..])
  }

  /** Any number of updates between two ticks act as one update with their sum, so
      the next tick depends only on that sum, not on how it was split or ordered. */
  lemma {:induction false} UpdatesActAsTheirSum(w: Ewma, ns: seq<int>)
    ensures UpdateAll(w, ns) == EwmaUpdate(w, Sum(ns))
    ensures EwmaTick(UpdateAll(w, ns)) == EwmaTick(EwmaUpdate(w, Sum(ns)))
    decreases ns
  {
    if ns != [] {
      UpdatesActAsTheirSum(EwmaUpdate(w, ns[0]), ns[1..]);
    }
  }

  function Pow(x: real, k: nat): real {
    if k == 0 then 1.0 else x * Pow(x, k - 1)
  }

  /** The window after `k` ticks with no events. */
  function IdleTicks(w: Ewma, k: nat): Ewma {
    if k == 0 then w else EwmaTick(IdleTicks(w, k - 1))
  }

  /** With no new events an initialised window decays geometrically. */
  lemma {:induction false} IdleDecay(w: Ewma, k: nat)
    requires w.initialized && w.uncounted == 0 && 0.0 < w.alpha < 1.0
    ensures IdleTicks(w, k).initialized && IdleTicks(w, k).uncounted == 0 && IdleTicks(w, k).alpha == w.alpha
    ensures IdleTicks(w, k).rate == Pow(1.0 - w.alpha, k) * w.rate
  {
    if k > 0 {
      IdleDecay(w, k - 1);
      var p := IdleTicks(w, k - 1);
      assert EwmaTick(p).rate == (1.0 - w.alpha) * p.rate;
      MulAssoc(1.0 - w.alpha, Pow(1.0 - w.alpha, k - 1), w.rate);
    }
  }

  /** A new window that never receives events reads 0 after any number of ticks. */
  lemma {:induction false} IdleNewStaysZero(alpha: real, k: nat)
    ensures IdleTicks(NewEwma(alpha), k).rate == 0.0 && IdleTicks(NewEwma(alpha), k).uncounted == 0
  {
    if k > 0 {
      IdleNewStaysZero(alpha, k - 1);
    }
  }

  /** One idle tick of an initialised window with a positive rate lowers the rate
      strictly and keeps it positive. */
  lemma IdleTickDecreases(w: Ewma)
    requires w.initialized && w.uncounted == 0 && 0.0 < w.alpha < 1.0 && w.rate > 0.0
    ensures 0.0 < EwmaRate(EwmaTick(w)) < EwmaRate(w)
  {
    assert EwmaTick(w).rate == w.rate - w.alpha * w.rate;
    MulPositive(w.alpha, w.rate);
    MulPositive(1.0 - w.alpha, w.rate);
    assert w.rate - w.alpha * w.rate == (1.0 - w.alpha) * w.rate;
  }

  lemma MulPositive(x: real, y: real)
    requires x > 0.0 && y > 0.0
    ensures x * y > 0.0
  {
  }

  lemma MulLeftMono(c: real, x: real, y: real)
    requires c >= 0.0 && x <= y
    ensures c * x <= c * y
  {
  }

  lemma {:induction false} PowNonNegative(a: real, k: nat)
    requires 0.0 <= a <= 1.0
    ensures 0.0 <= Pow(a, k) <= 1.0
  {
    if k > 0 {
      PowNonNegative(a, k - 1);
      assert Pow(a, k) == a * Pow(a, k - 1);
      MulLeftMono(a, 0.0, Pow(a, k - 1));
      MulLeftMono(Pow(a, k - 1), a, 1.0);
    }
  }

  /** (1 - a)^k * (1 + k a) <= 1, which bounds geometric decay from above. */
  lemma {:induction false} PowBound(a: real, k: nat)
    requires 0.0 < a < 1.0
    ensures Pow(1.0 - a, k) * (1.0 + k as real * a) <= 1.0
  {
    if k > 0 {
      PowBound(a, k - 1);
      PowNonNegative(1.0 - a, k - 1);
      var p := Pow(1.0 - a, k - 1);
      var m := (k - 1) as real;
      assert (1.0 - a) * (1.0 + m * a + a) == 1.0 + m * a - m * a * a - a * a;
      assert (1.0 - a) * (1.0 + m * a + a) <= 1.0 + m * a;
      calc {
        Pow(1.0 - a, k) * (1.0 + k as real * a);
        p * ((1.0 - a) * (1.0 + m * a + a));
      <= { assert p >= 0.0; }
        p * (1.0 + m * a);
      <=
        1.0;
      }
    }
  }

  /** Enough idle ticks bring any rate down to any positive bound, so a loop that
      ticks while the rate is above a positive threshold terminates. */
  lemma EventuallyAtMost(w: Ewma, bound: real)
    requires w.initialized && w.uncounted == 0 && 0.0 < w.alpha < 1.0 && w.rate >= 0.0
    requires bound > 0.0
    ensures exists k: nat :: EwmaRate(IdleTicks(w, k)) <= bound
  {
    var k := DecayReaches(w.alpha, w.rate, bound);
    IdleDecay(w, k);
  }

  /** A number of steps after which geometric decay by 1 - a takes r below b. */
  lemma DecayReaches(a: real, r: real, b: real) returns (k: nat)
    requires 0.0 < a < 1.0 && r >= 0.0 && b > 0.0
    ensures Pow(1.0 - a, k) * r <= b
  {
    var c := a * b;
    MulPositive(a, b);
    k := (r / c).Floor + 1;
    ScaledFloor(r, c, k);
    GrowthBound(k as real, a, b, r);
    DecayAfter(a, r, b, k);
  }

  /** Decay by 1 - a over k steps takes r below b once (1 + k a) b reaches r. */
  lemma DecayAfter(a: real, r: real, b: real, k: nat)
    requires 0.0 < a < 1.0 && b > 0.0 && (1.0 + k as real * a) * b >= r
    ensures Pow(1.0 - a, k) * r <= b
  {
    PowBound(a, k);
    PowNonNegative(1.0 - a, k);
    var p := Pow(1.0 - a, k);
    var q := 1.0 + k as real * a;
    ScaleBound(p, q, r, b);
  }

  lemma GrowthBound(k: real, a: real, b: real, r: real)
    requires k * (a * b) >= r && b > 0.0
    ensures (1.0 + k * a) * b >= r
  {
    MulAssoc(k, a, b);
  }

  /** If p * q <= 1 and q * b bounds r from above, then p * r <= b. */
  lemma ScaleBound(p: real, q: real, r: real, b: real)
    requires p >= 0.0 && p * q <= 1.0 && q * b >= r && b > 0.0
    ensures p * r <= b
  {
    MulLeftMono(p, r, q * b);
    MulAssoc(p, q, b);
    MulLeftMono(b, p * q, 1.0);
  }

  lemma ScaledFloor(x: real, c: real, k: int)
    requires c > 0.0 && k == (x / c).Floor + 1
    ensures k as real * c >= x
  {
    assert k as real >= x / c;
    MulLeftMono(c, x / c, k as real);
    assert c * (x / c) == x;
  }

  /** The window after `k` rounds of "update with `n`, then tick". */
  function FedTicks(w: Ewma, n: int, k: nat): Ewma {
    if k == 0 then w else EwmaTick(EwmaUpdate(FedTicks(w, n, k - 1), n))
  }

  /** Feeding `n` events per interval closes the gap to the target rate n / 5
      geometrically, so enough rounds bring the rate within any positive margin of
      it (the tests feed 25 x threshold events per round until the rate reaches the
      threshold). */
  lemma {:induction false} FedGap(w: Ewma, n: int, k: nat)
    requires w.initialized && w.uncounted == 0 && 0.0 < w.alpha < 1.0
    ensures FedTicks(w, n, k).initialized && FedTicks(w, n, k).uncounted == 0
    ensures FedTicks(w, n, k).alpha == w.alpha
    ensures n as real / TickSeconds - FedTicks(w, n, k).rate == Pow(1.0 - w.alpha, k) * (n as real / TickSeconds - w.rate)
  {
    if k > 0 {
      FedGap(w, n, k - 1);
      var t := n as real / TickSeconds;
      var p := FedTicks(w, n, k - 1);
      FedStep(p, n);
      MulAssoc(1.0 - w.alpha, Pow(1.0 - w.alpha, k - 1), t - w.rate);
    }
  }

  /** One round of "update with `n`, then tick" shrinks the gap to n / 5 by 1 - alpha. */
  lemma FedStep(p: Ewma, n: int)
    requires p.initialized && p.uncounted == 0 && 0.0 < p.alpha < 1.0
    ensures var q := EwmaTick(EwmaUpdate(p, n));
      && q.initialized && q.uncounted == 0 && q.alpha == p.alpha
      && n as real / TickSeconds - q.rate == (1.0 - p.alpha) * (n as real / TickSeconds - p.rate)
  {
    var t := n as real / TickSeconds;
    assert EwmaUpdate(p, n).uncounted as real / TickSeconds == t;
  }

  lemma MulAssoc(x: real, y: real, z: real)
    ensures x * (y * z) == (x * y) * z
  {
  }

  lemma EventuallyAtLeast(w: Ewma, n: int, margin: real)
    requires w.initialized && w.uncounted == 0 && 0.0 < w.alpha < 1.0
    requires margin > 0.0
    ensures exists k: nat ::
      n as real / TickSeconds - margin <= EwmaRate(FedTicks(w, n, k)) <= n as real / TickSeconds + margin
  {
    var t := n as real / TickSeconds;
    var g := if w.rate <= t then t - w.rate else w.rate - t;
    var k := DecayReaches(w.alpha, g, margin);
    FedGap(w, n, k);
    var p := Pow(1.0 - w.alpha, k);
    PowNonNegative(1.0 - w.alpha, k);
    MulLeftMono(p, 0.0, g);
    if w.rate <= t {
      assert t - FedTicks(w, n, k).rate == p * g;
    } else {
      assert FedTicks(w, n, k).rate - t == p * g;
    }
    assert t - margin <= EwmaRate(FedTicks(w, n, k)) <= t + margin;
  }

  /** The counter: a lifetime count and the three windows. */
  class CounterStat {
    var count: int
    var oneMinute: Ewma
    var fiveMinute: Ewma
    var fifteenMinute: Ewma

    /** The windows keep their fixed smoothing factors and every quantity is non-negative. */
    ghost predicate Valid()
      reads this
    {
      && oneMinute.alpha == OneMinuteAlpha && Sound(oneMinute)
      && fiveMinute.alpha == FiveMinuteAlpha && Sound(fiveMinute)
      && fifteenMinute.alpha == FifteenMinuteAlpha && Sound(fifteenMinute)
      && count >= 0
    }

    constructor ()
      ensures Valid()
      ensures count == 0
      ensures oneMinute == NewEwma(OneMinuteAlpha) && fiveMinute == NewEwma(FiveMinuteAlpha)
      ensures fifteenMinute == NewEwma(FifteenMinuteAlpha)
    {
      count := 0;
      oneMinute := NewEwma(OneMinuteAlpha);
      fiveMinute := NewEwma(FiveMinuteAlpha);
      fifteenMinute := NewEwma(FifteenMinuteAlpha);
    }

    /** Advances every window; the count is unchanged. */
    method Tick()
      modifies this
      ensures count == old(count)
      ensures oneMinute == EwmaTick(old(oneMinute)) && fiveMinute == EwmaTick(old(fiveMinute))
      ensures fifteenMinute == EwmaTick(old(fifteenMinute))
      ensures old(Valid()) ==> Valid()
    {
      if Valid() {
        TickKeepsSound(oneMinute);
        TickKeepsSound(fiveMinute);
        TickKeepsSound(fifteenMinute);
      }
      oneMinute := EwmaTick(oneMinute);
      fiveMinute := EwmaTick(fiveMinute);
      fifteenMinute := EwmaTick(fifteenMinute);
    }

    /** Passes `n` to every window and adds it to the count. */
    method Update(n: int)
      modifies this
      ensures count == old(count) + n
      ensures oneMinute == EwmaUpdate(old(oneMinute), n) && fiveMinute == EwmaUpdate(old(fiveMinute), n)
      ensures fifteenMinute == EwmaUpdate(old(fifteenMinute), n)
      ensures old(Valid()) && n >= 0 ==> Valid()
    {
      oneMinute := EwmaUpdate(oneMinute, n);
      fiveMinute := EwmaUpdate(fiveMinute, n);
      fifteenMinute := EwmaUpdate(fifteenMinute, n);
      count := count + n;
    }

    function GetCount(): int
      reads this
    {
      count
    }

    function GetOneMinuteRate(): (r: real)
      reads this
      ensures Valid() ==> r >= 0.0
    {
      EwmaRate(oneMinute)
    }

    function GetFiveMinuteRate(): (r: real)
      reads this
      ensures Valid() ==> r >= 0.0
    {
      EwmaRate(fiveMinute)
    }

    function GetFifteenMinuteRate(): (r: real)
      reads this
      ensures Valid() ==> r >= 0.0
    {
      EwmaRate(fifteenMinute)
    }
  }
}

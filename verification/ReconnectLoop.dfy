/**
 * One adapter's reconnect loop: exponential backoff with jitter around attempts to
 * reopen and initialize. The loop is a method with the source's own control flow;
 * the functions give the same loop as one step per await, which is what the
 * supervisor interleaves.
 */
module ReconnectLoop {
  /** Delays in milliseconds, as exact numbers. */
  datatype Config = Config(initialDelay: real, maxDelay: real, maxAttempts: int)

  datatype Ending = Silent | Reconnected | Failed

  datatype LoopState =
    | Sleeping(attempts: nat, delay: real)
    | Reopening(attempts: nat)
    | Initializing(attempts: nat)
    | Ended(attempts: nat, ending: Ending)

  // -- Backoff -----------------------------------------------------------------------

  function Pow2(n: nat): real {
    if n == 0 then 1.0 else 2.0 * Pow2(n - 1)
  }

  function Min(a: real, b: real): real {
    if a <= b then a else b
  }

  function Max(a: real, b: real): real {
    if a >= b then a else b
  }

  /** `random` is uniform in [0, 1). */
  function Delay(c: Config, attempts: nat, random: real): real {
    Max(c.initialDelay, BaseDelay(c, attempts) * (0.75 + random * 0.5))
  }

  function BaseDelay(c: Config, attempts: nat): real {
    Min(c.initialDelay * Pow2(attempts), c.maxDelay)
  }

  predicate Random(u: real) {
    0.0 <= u < 1.0
  }

  lemma {:induction false} Pow2AtLeastOne(n: nat)
    ensures Pow2(n) >= 1.0
  {
    if n > 0 {
      Pow2AtLeastOne(n - 1);
    }
  }

  /** Jitter moves a delay by up to a quarter of its base either way, but never below the initial delay. */
  lemma JitterIsAQuarter(c: Config, n: nat, u: real)
    requires Random(u)
    ensures var base := BaseDelay(c, n);
            && Delay(c, n, u) == Max(c.initialDelay, base + base * (u - 0.5) * 0.5)
            && -0.25 <= (u - 0.5) * 0.5 < 0.25
  {
    var base := BaseDelay(c, n);
    assert base * (0.75 + u * 0.5) == base + base * (u - 0.5) * 0.5;
  }

  /** Without jitter the delay doubles until it reaches the cap, and then stays there. */
  lemma BackoffDoubles(c: Config, n: nat)
    requires 0.0 <= c.initialDelay && 0.0 <= c.maxDelay
    ensures BaseDelay(c, n + 1) == Min(2.0 * BaseDelay(c, n), c.maxDelay)
    ensures BaseDelay(c, 0) == Min(c.initialDelay, c.maxDelay)
  {
    Pow2AtLeastOne(n);
    var exact := c.initialDelay * Pow2(n);
    assert 0.0 <= exact;
    assert c.initialDelay * Pow2(n + 1) == 2.0 * exact by {
      assert Pow2(n + 1) == 2.0 * Pow2(n);
      Associates(c.initialDelay, Pow2(n));
    }
  }

  lemma Associates(x: real, y: real)
    ensures x * (2.0 * y) == 2.0 * (x * y)
  {
  }

  lemma DelayBounds(c: Config, n: nat, u: real)
    requires 0.0 <= c.initialDelay && 0.0 <= c.maxDelay && Random(u)
    ensures c.initialDelay <= Delay(c, n, u) <= Max(c.initialDelay, 1.25 * c.maxDelay)
  {
    Pow2AtLeastOne(n);
    var base := BaseDelay(c, n);
    assert 0.0 <= c.initialDelay * Pow2(n);
    var factor := 0.75 + u * 0.5;
    assert 0.0 <= factor <= 1.25;
    Scaled(base, factor, c.maxDelay);
  }

  lemma Scaled(base: real, factor: real, cap: real)
    requires 0.0 <= base <= cap && 0.0 <= factor <= 1.25
    ensures base * factor <= 1.25 * cap
  {
    assert base * factor <= base * 1.25;
  }

  /** Every delay stays between `initialDelay` and 1.25 times `maxDelay` exactly when the first does not exceed the last. */
  lemma DelaysBoundedExactly(c: Config)
    requires 0.0 <= c.initialDelay && 0.0 <= c.maxDelay
    ensures (forall n: nat, u: real | Random(u) :: c.initialDelay <= Delay(c, n, u) <= 1.25 * c.maxDelay)
            <==> c.initialDelay <= 1.25 * c.maxDelay
  {
    if c.initialDelay <= 1.25 * c.maxDelay {
      forall n: nat, u: real | Random(u) ensures c.initialDelay <= Delay(c, n, u) <= 1.25 * c.maxDelay {
        DelayBounds(c, n, u);
      }
    } else {
      DelayBounds(c, 0, 0.0);
      assert Random(0.0);
    }
  }

  // -- One step per await ------------------------------------------------------------

  /** The loop head: sleep before another attempt, or end. */
  function Round(c: Config, attempts: nat, closed: bool, u: real): LoopState {
    if !closed && attempts < c.maxAttempts then Sleeping(attempts, Delay(c, attempts, u))
    else Ended(attempts, if closed then Silent else Failed)
  }

  /** The pending await settles: `ok` is the timer firing, or reopen or init succeeding. */
  function Next(c: Config, s: LoopState, ok: bool, closed: bool, u: real): LoopState {
    match s
    case Sleeping(n, _) =>
      if closed then Ended(n, Silent) else if !ok then Ended(n, Failed) else Reopening(n + 1)
    case Reopening(n) =>
      if !ok then Round(c, n, closed, u) else if closed then Ended(n, Silent) else Initializing(n)
    case Initializing(n) =>
      if !ok then Round(c, n, closed, u) else if closed then Ended(n, Silent) else Ended(n, Reconnected)
    case Ended(_, _) => s
  }

  /** The state after `t` awaits, given how each settles and whether the modem is closed by then. */
  function After(c: Config, settles: nat -> bool, closed: nat -> bool, u: nat -> real, t: nat): LoopState {
    if t == 0 then Round(c, 0, closed(0), u(0))
    else Next(c, After(c, settles, closed, u, t - 1), settles(t - 1), closed(t), u(t))
  }

  /** Never more attempts than allowed. */
  lemma {:induction false} AttemptsBounded(c: Config, settles: nat -> bool, closed: nat -> bool, u: nat -> real, t: nat)
    ensures After(c, settles, closed, u, t).attempts <= Max0(c.maxAttempts)
    ensures After(c, settles, closed, u, t).Sleeping? ==> After(c, settles, closed, u, t).attempts < c.maxAttempts
  {
    hide Delay;
    if t > 0 {
      AttemptsBounded(c, settles, closed, u, t - 1);
    }
  }

  /** The loop was aborted in its sleep while the modem was open. */
  ghost predicate AbortedAt(c: Config, settles: nat -> bool, closed: nat -> bool, u: nat -> real, k: nat) {
    After(c, settles, closed, u, k).Sleeping? && !settles(k) && !closed(k + 1)
  }

  ghost predicate FailsEarly(c: Config, settles: nat -> bool, closed: nat -> bool, u: nat -> real, t: nat) {
    var s := After(c, settles, closed, u, t);
    s.Ended? && s.ending == Failed && s.attempts < c.maxAttempts
  }

  lemma {:induction false} EarlyFailureMeansAborted(c: Config, settles: nat -> bool, closed: nat -> bool, u: nat -> real,
                                                    t: nat) returns (k: nat)
    requires FailsEarly(c, settles, closed, u, t)
    ensures k < t && AbortedAt(c, settles, closed, u, k)
  {
    hide Delay;
    k := t - 1;
    if After(c, settles, closed, u, t - 1).Ended? {
      k := EarlyFailureMeansAborted(c, settles, closed, u, t - 1);
    }
  }

  /** A loop reports failure with attempts left exactly when it was aborted in a sleep of an open modem. */
  lemma FailsEarlyExactly(c: Config, settles: nat -> bool, closed: nat -> bool, u: nat -> real, t: nat)
    ensures FailsEarly(c, settles, closed, u, t)
            <==> exists k: nat :: k < t && AbortedAt(c, settles, closed, u, k)
  {
    if FailsEarly(c, settles, closed, u, t) {
      var k := EarlyFailureMeansAborted(c, settles, closed, u, t);
    }
    if k: nat :| k < t && AbortedAt(c, settles, closed, u, k) {
      AttemptsBounded(c, settles, closed, u, k);
      assert After(c, settles, closed, u, k + 1) == Ended(After(c, settles, closed, u, k).attempts, Failed);
      EndedStays(c, settles, closed, u, k + 1, t);
    }
  }

  function Max0(n: int): nat {
    if n < 0 then 0 else n
  }

  /** Once ended, the loop stays ended. */
  lemma {:induction false} EndedStays(c: Config, settles: nat -> bool, closed: nat -> bool, u: nat -> real, t: nat, t': nat)
    requires After(c, settles, closed, u, t).Ended? && t <= t'
    ensures After(c, settles, closed, u, t') == After(c, settles, closed, u, t)
    decreases t'
  {
    if t < t' {
      EndedStays(c, settles, closed, u, t, t' - 1);
    }
  }

  // -- How a loop left alone ends ---------------------------------------------------------

  /** The await in which attempt `k + 1` sleeps when the `k` attempts before it failed. */
  function SleepOf(settles: nat -> bool, k: nat): nat {
    if k == 0 then 0
    else
      var t := SleepOf(settles, k - 1);
      if settles(t + 1) then t + 3 else t + 2
  }

  /** Attempt `k` reopens and initializes: the two awaits after its sleep both succeed. */
  predicate Succeeds(settles: nat -> bool, k: nat) {
    k >= 1 && settles(SleepOf(settles, k - 1) + 1) && settles(SleepOf(settles, k - 1) + 2)
  }

  ghost predicate NoneSucceeds(settles: nat -> bool, k: nat) {
    forall j | 1 <= j <= k :: !Succeeds(settles, j)
  }

  /** The modem stays open, and no sleep is cut short. */
  ghost predicate LeftAlone(c: Config, settles: nat -> bool, closed: nat -> bool, u: nat -> real) {
    forall t: nat :: !closed(t) && (After(c, settles, closed, u, t).Sleeping? ==> settles(t))
  }

  lemma {:induction false} FailuresLeadOn(c: Config, settles: nat -> bool, closed: nat -> bool, u: nat -> real, k: nat)
    requires LeftAlone(c, settles, closed, u) && k <= Max0(c.maxAttempts) && NoneSucceeds(settles, k)
    ensures After(c, settles, closed, u, SleepOf(settles, k)) == Round(c, k, false, u(SleepOf(settles, k)))
  {
    hide Delay, SleepOf, Succeeds, Round, After, LeftAlone;
    if k == 0 {
      SleepAfter(settles, 0);
      FirstRound(c, settles, closed, u);
    } else {
      var n := k - 1;
      var t := SleepOf(settles, n);
      FailuresLeadOn(c, settles, closed, u, n);
      SleepAfter(settles, n);
      SucceedsMeans(settles, n);
      AttemptOutcome(c, settles, closed, u, n, t);
      assert !Succeeds(settles, k);
      assert !(settles(t + 1) && settles(t + 2));
      if settles(t + 1) {
        assert SleepOf(settles, k) == t + 3;
      } else {
        assert SleepOf(settles, k) == t + 2;
      }
    }
  }

  lemma FirstRound(c: Config, settles: nat -> bool, closed: nat -> bool, u: nat -> real)
    requires LeftAlone(c, settles, closed, u)
    ensures After(c, settles, closed, u, 0) == Round(c, 0, false, u(0))
  {
    hide Round;
  }

  /** One attempt of a loop left alone, await by await. */
  lemma AttemptOutcome(c: Config, settles: nat -> bool, closed: nat -> bool, u: nat -> real, n: nat, t: nat)
    requires LeftAlone(c, settles, closed, u) && n < c.maxAttempts
    requires After(c, settles, closed, u, t) == Round(c, n, false, u(t))
    ensures settles(t + 1) && settles(t + 2) ==> After(c, settles, closed, u, t + 3) == Ended(n + 1, Reconnected)
    ensures settles(t + 1) && !settles(t + 2) ==> After(c, settles, closed, u, t + 3) == Round(c, n + 1, false, u(t + 3))
    ensures !settles(t + 1) ==> After(c, settles, closed, u, t + 2) == Round(c, n + 1, false, u(t + 2))
  {
    hide Delay;
    assert After(c, settles, closed, u, t).Sleeping? && settles(t);
    assert !closed(t + 1) && !closed(t + 2) && !closed(t + 3);
    assert After(c, settles, closed, u, t + 1) == Reopening(n + 1);
    if settles(t + 1) {
      assert After(c, settles, closed, u, t + 2) == Initializing(n + 1);
      if settles(t + 2) {
        assert After(c, settles, closed, u, t + 3) == Ended(n + 1, Reconnected);
      } else {
        assert After(c, settles, closed, u, t + 3) == Round(c, n + 1, false, u(t + 3));
      }
    } else {
      assert After(c, settles, closed, u, t + 2) == Round(c, n + 1, false, u(t + 2));
    }
  }

  lemma AfterNext(c: Config, settles: nat -> bool, closed: nat -> bool, u: nat -> real, t: nat)
    ensures After(c, settles, closed, u, 0) == Round(c, 0, closed(0), u(0))
    ensures After(c, settles, closed, u, t + 1)
            == Next(c, After(c, settles, closed, u, t), settles(t), closed(t + 1), u(t + 1))
  {
  }

  lemma SleepAfter(settles: nat -> bool, k: nat)
    ensures SleepOf(settles, 0) == 0
    ensures SleepOf(settles, k + 1) == SleepOf(settles, k) + if settles(SleepOf(settles, k) + 1) then 3 else 2
  {
  }

  /** The sleeps asked for so far: the first with no attempts made, each next with one more. */
  ghost predicate DelaysAre(c: Config, settles: nat -> bool, u: nat -> real, delays: seq<real>) {
    forall i | 0 <= i < |delays| :: delays[i] == Delay(c, i, u(SleepOf(settles, i)))
  }

  lemma NoDelaysYet(c: Config, settles: nat -> bool, u: nat -> real)
    ensures DelaysAre(c, settles, u, [])
  {
  }

  lemma DelaysMore(c: Config, settles: nat -> bool, u: nat -> real, delays: seq<real>, delay: real)
    requires DelaysAre(c, settles, u, delays) && delay == Delay(c, |delays|, u(SleepOf(settles, |delays|)))
    ensures DelaysAre(c, settles, u, delays + [delay])
  {
    hide SleepOf, Delay;
  }

  /** The attempts before the first success among the first `n`, or all `n` of them. */
  lemma {:induction false} FirstSuccess(settles: nat -> bool, n: nat) returns (k: nat)
    ensures k <= n && NoneSucceeds(settles, k) && (k < n ==> Succeeds(settles, k + 1))
  {
    hide Succeeds;
    k := 0;
    if n > 0 {
      k := FirstSuccess(settles, n - 1);
      if k == n - 1 && !Succeeds(settles, n) {
        k := n;
      }
    }
  }

  /**
   * Left alone, a loop that has ended reports reconnection after `k` attempts exactly when
   * attempt `k` is the first, within the limit, whose reopen and init both succeed, and
   * failure exactly when no attempt the limit allows does.
   */
  lemma EndsExactly(c: Config, settles: nat -> bool, closed: nat -> bool, u: nat -> real, t: nat, k: nat)
    requires LeftAlone(c, settles, closed, u) && After(c, settles, closed, u, t).Ended?
    ensures After(c, settles, closed, u, t) == Ended(k, Reconnected)
            <==> 1 <= k <= c.maxAttempts && Succeeds(settles, k) && NoneSucceeds(settles, k - 1)
    ensures After(c, settles, closed, u, t) == Ended(k, Failed)
            <==> k == Max0(c.maxAttempts) && NoneSucceeds(settles, k)
  {
    hide Delay, Succeeds, LeftAlone;
    var f := FirstSuccess(settles, Max0(c.maxAttempts));
    var e := SleepOf(settles, f);
    FailuresLeadOn(c, settles, closed, u, f);
    if f < c.maxAttempts {
      AttemptOutcome(c, settles, closed, u, f, e);
      SucceedsMeans(settles, f);
      EndedOnce(c, settles, closed, u, t, e + 3);
    } else {
      EndedOnce(c, settles, closed, u, t, e);
    }
  }

  lemma SucceedsMeans(settles: nat -> bool, k: nat)
    ensures Succeeds(settles, k + 1) <==> settles(SleepOf(settles, k) + 1) && settles(SleepOf(settles, k) + 2)
  {
  }

  lemma EndedOnce(c: Config, settles: nat -> bool, closed: nat -> bool, u: nat -> real, t: nat, t': nat)
    requires After(c, settles, closed, u, t).Ended? && After(c, settles, closed, u, t').Ended?
    ensures After(c, settles, closed, u, t) == After(c, settles, closed, u, t')
  {
    if t <= t' {
      EndedStays(c, settles, closed, u, t, t');
    } else {
      EndedStays(c, settles, closed, u, t', t);
    }
  }

  /** On any run, closed or aborted at any point, reconnection is reported only by an init that has succeeded. */
  lemma {:induction false} ReconnectedMeans(c: Config, settles: nat -> bool, closed: nat -> bool, u: nat -> real, t: nat,
                                            n: nat) returns (i: nat)
    requires After(c, settles, closed, u, t) == Ended(n, Reconnected)
    ensures i < t && After(c, settles, closed, u, i) == Initializing(n) && settles(i) && !closed(i + 1)
  {
    hide Delay;
    i := t - 1;
    if After(c, settles, closed, u, t - 1).Ended? {
      i := ReconnectedMeans(c, settles, closed, u, t - 1, n);
    }
  }

  /** What a run of the loop reports; `delays` are the sleeps it asked for, `awaits` how many awaits it made. */
  datatype Report = Report(state: LoopState, delays: seq<real>, reopens: nat, awaits: nat)

  /**
   * The loop itself. The modem's closed flag is read several times between two
   * awaits but cannot change there.
   */
  method Run(c: Config, settles: nat -> bool, closed: nat -> bool, u: nat -> real) returns (r: Report)
    requires forall t: nat :: Random(u(t))
    ensures r.state.Ended? && r.state == After(c, settles, closed, u, r.awaits)
    ensures r.reopens == r.state.attempts <= Max0(c.maxAttempts) && r.reopens <= |r.delays| <= r.reopens + 1
    ensures r.awaits <= 3 * Max0(c.maxAttempts)
    ensures 0.0 <= c.initialDelay && 0.0 <= c.maxDelay ==>
              forall i | 0 <= i < |r.delays| :: c.initialDelay <= r.delays[i] <= Max(c.initialDelay, 1.25 * c.maxDelay)
    ensures r.state.ending == Silent <==> closed(r.awaits)
    ensures DelaysAre(c, settles, u, r.delays)
  {
    hide Delay, Pow2, SleepOf, DelaysAre, After;
    AfterNext(c, settles, closed, u, 0);
    SleepAfter(settles, 0);
    NoDelaysYet(c, settles, u);
    var attempts: nat := 0;
    var t: nat := 0;
    var delays: seq<real> := [];
    var reopens: nat := 0;
    while !closed(t) && attempts < c.maxAttempts
      invariant attempts <= Max0(c.maxAttempts) && reopens == attempts == |delays| && t <= 3 * attempts
      invariant After(c, settles, closed, u, t) == Round(c, attempts, closed(t), u(t))
      invariant t == SleepOf(settles, attempts)
      invariant DelaysAre(c, settles, u, delays)
      invariant 0.0 <= c.initialDelay && 0.0 <= c.maxDelay ==>
                  forall i | 0 <= i < |delays| :: c.initialDelay <= delays[i] <= Max(c.initialDelay, 1.25 * c.maxDelay)
      decreases c.maxAttempts - attempts
    {
      var effectiveDelay := Delay(c, attempts, u(t));
      if 0.0 <= c.initialDelay && 0.0 <= c.maxDelay {
        DelayBounds(c, attempts, u(t));
      }
      assert After(c, settles, closed, u, t) == Sleeping(attempts, effectiveDelay);
      AfterNext(c, settles, closed, u, t);
      AfterNext(c, settles, closed, u, t + 1);
      AfterNext(c, settles, closed, u, t + 2);
      SleepAfter(settles, attempts);
      DelaysMore(c, settles, u, delays, effectiveDelay);
      delays := delays + [effectiveDelay];
      t := t + 1;
      if !settles(t - 1) {
        break;
      }
      if closed(t) {
        break;
      }
      attempts := attempts + 1;
      reopens := reopens + 1;
      assert After(c, settles, closed, u, t) == Reopening(attempts);
      t := t + 1;
      if settles(t - 1) {
        if closed(t) {
          break;
        }
        assert After(c, settles, closed, u, t) == Initializing(attempts);
        t := t + 1;
        if settles(t - 1) {
          if closed(t) {
            break;
          }
          return Report(Ended(attempts, Reconnected), delays, reopens, t);
        }
      }
    }
    r := Report(Ended(attempts, if closed(t) then Silent else Failed), delays, reopens, t);
  }
}

/** The delay before a webhook retry: exponential, jittered, capped and rounded. Doubles are modelled as reals. */
module RetryBackoff {

  function Pow2(n: nat): (p: nat)
    ensures p >= 1
  {
    if n == 0 then 1 else 2 * Pow2(n - 1)
  }

  /** Math.round */
  function Round(x: real): int {
    (x + 0.5).Floor
  }

  function Min(x: real, y: real): real {
    if x <= y then x else y
  }

  /** What Math.random() * 0.3 * base can be. */
  predicate IsJitter(base: nat, jitter: real) {
    0.0 <= jitter < 0.3 * base as real
  }

  function Delay(base: nat, max: nat, attempt: nat, jitter: real): int
    requires attempt >= 1
  {
    Round(Min((base * Pow2(attempt - 1)) as real + jitter, max as real))
  }

  lemma {:induction false} PowersGrow(base: nat, m: nat, n: nat)
    requires m < n
    ensures 2 * (base * Pow2(m)) <= base * Pow2(n)
    decreases n
  {
    assert base * Pow2(n) == 2 * (base * Pow2(n - 1)) by {
      Regroup(base, Pow2(n - 1));
    }
    if m < n - 1 {
      PowersGrow(base, m, n - 1);
    }
  }

  lemma Regroup(a: nat, b: nat)
    ensures a * (2 * b) == 2 * (a * b)
  {
  }

  lemma AtLeastBase(base: nat, m: nat)
    ensures base * Pow2(m) >= base
  {
    if m > 0 {
      PowersGrow(base, 0, m);
    }
  }

  lemma RoundMonotone(x: real, y: real)
    requires x <= y
    ensures Round(x) <= Round(y)
  {
  }

  lemma RoundInteger(n: int, x: real)
    ensures n as real <= x ==> n <= Round(x)
    ensures x <= n as real ==> Round(x) <= n
  {
  }

  /** A later attempt never waits less than an earlier one, whatever the jitters. */
  lemma DelayNeverDecreases(base: nat, max: nat, m: nat, jitterM: real, n: nat, jitterN: real)
    requires 1 <= m < n && IsJitter(base, jitterM) && IsJitter(base, jitterN)
    ensures Delay(base, max, m, jitterM) <= Delay(base, max, n, jitterN)
  {
    PowersGrow(base, m - 1, n - 1);
    AtLeastBase(base, m - 1);
    var x, y := (base * Pow2(m - 1)) as real + jitterM, (base * Pow2(n - 1)) as real + jitterN;
    assert x <= y;
    RoundMonotone(Min(x, max as real), Min(y, max as real));
  }

  /** The delay is the whole number nearest to the capped sum of power and jitter, upwards from one half. */
  lemma DelayIsNearest(base: nat, max: nat, attempt: nat, jitter: real)
    requires attempt >= 1
    ensures var sum := (base * Pow2(attempt - 1)) as real + jitter;
            var exact := if sum <= max as real then sum else max as real;
            Delay(base, max, attempt, jitter) as real - 0.5 <= exact < Delay(base, max, attempt, jitter) as real + 0.5
  {
  }

  lemma DelayBounds(base: nat, max: nat, attempt: nat, jitter: real)
    requires attempt >= 1 && IsJitter(base, jitter)
    ensures (if base <= max then base else max) <= Delay(base, max, attempt, jitter) <= max
  {
    AtLeastBase(base, attempt - 1);
    var x := Min((base * Pow2(attempt - 1)) as real + jitter, max as real);
    RoundInteger(if base <= max then base else max, x);
    RoundInteger(max, x);
  }

  lemma DelayNearPower(base: nat, max: nat, attempt: nat, jitter: real)
    requires attempt >= 1 && IsJitter(base, jitter)
    ensures Delay(base, max, attempt, jitter) as real <= (base * Pow2(attempt - 1)) as real + 0.3 * base as real + 0.5
    ensures base * Pow2(attempt - 1) <= max ==> base * Pow2(attempt - 1) <= Delay(base, max, attempt, jitter)
  {
    var x := Min((base * Pow2(attempt - 1)) as real + jitter, max as real);
    RoundInteger(base * Pow2(attempt - 1), x);
  }

  /** The waits before attempts 2 to |jitters| + 1 of one chain. */
  function TotalWait(base: nat, max: nat, jitters: seq<real>): int {
    if jitters == [] then 0
    else
      var n := |jitters|;
      TotalWait(base, max, jitters[..n - 1]) + Delay(base, max, n, jitters[n - 1])
  }

  /** The part of the bound that jitter and rounding can add to k delays. */
  function Slack(base: nat, k: nat): real {
    k as real * (0.3 * base as real + 0.5)
  }

  lemma SlackStep(base: nat, k: nat)
    requires k > 0
    ensures Slack(base, k) == Slack(base, k - 1) + (0.3 * base as real + 0.5)
  {
    RealStep(k, 0.3 * base as real + 0.5);
  }

  lemma UpperStep(front: int, delay: int, sum: int, power: int, slack: real, extra: real)
    requires front as real <= sum as real + slack
    requires delay as real <= power as real + extra
    ensures (front + delay) as real <= (sum + power) as real + (slack + extra)
  {
  }

  lemma {:induction false} TotalWaitUpper(base: nat, max: nat, jitters: seq<real>)
    requires forall i :: 0 <= i < |jitters| ==> IsJitter(base, jitters[i])
    ensures TotalWait(base, max, jitters) as real <= (base * (Pow2(|jitters|) - 1)) as real + Slack(base, |jitters|)
  {
    var k := |jitters|;
    if k == 0 {
      assert base * (Pow2(0) - 1) == 0;
    } else {
      TotalWaitUpper(base, max, jitters[..k - 1]);
      DelayNearPower(base, max, k, jitters[k - 1]);
      GeometricStep(base, k);
      SlackStep(base, k);
      UpperStep(TotalWait(base, max, jitters[..k - 1]), Delay(base, max, k, jitters[k - 1]),
                base * (Pow2(k - 1) - 1), base * Pow2(k - 1), Slack(base, k - 1), 0.3 * base as real + 0.5);
    }
  }

  lemma {:induction false} TotalWaitCapped(base: nat, max: nat, jitters: seq<real>)
    requires forall i :: 0 <= i < |jitters| ==> IsJitter(base, jitters[i])
    ensures 0 <= TotalWait(base, max, jitters) <= |jitters| * max
  {
    var k := |jitters|;
    if k > 0 {
      TotalWaitCapped(base, max, jitters[..k - 1]);
      DelayBounds(base, max, k, jitters[k - 1]);
      NatStep(k, max);
    }
  }

  lemma {:induction false} TotalWaitLower(base: nat, max: nat, jitters: seq<real>)
    requires forall i :: 0 <= i < |jitters| ==> IsJitter(base, jitters[i])
    requires jitters != [] ==> base * Pow2(|jitters| - 1) <= max
    ensures base * (Pow2(|jitters|) - 1) <= TotalWait(base, max, jitters)
  {
    var k := |jitters|;
    if k > 0 {
      if k > 1 {
        PowersGrow(base, k - 2, k - 1);
      }
      TotalWaitLower(base, max, jitters[..k - 1]);
      DelayNearPower(base, max, k, jitters[k - 1]);
      GeometricStep(base, k);
    }
  }

  /** Closed bounds on the total wait of a chain with k retries: base·(2^k − 1) from below while the cap is not reached;
      from above that plus k times jitter and rounding, and never more than k·max. */
  lemma TotalWaitBounds(base: nat, max: nat, jitters: seq<real>)
    requires forall i :: 0 <= i < |jitters| ==> IsJitter(base, jitters[i])
    ensures var k, total := |jitters|, TotalWait(base, max, jitters);
            && total as real <= (base * (Pow2(k) - 1)) as real + Slack(base, k)
            && 0 <= total <= k * max
            && (k > 0 && base * Pow2(k - 1) <= max ==> base * (Pow2(k) - 1) <= total)
  {
    TotalWaitUpper(base, max, jitters);
    TotalWaitCapped(base, max, jitters);
    if jitters != [] && base * Pow2(|jitters| - 1) <= max {
      TotalWaitLower(base, max, jitters);
    }
  }

  lemma GeometricStep(base: nat, k: nat)
    requires k > 0
    ensures base * (Pow2(k) - 1) == base * (Pow2(k - 1) - 1) + base * Pow2(k - 1)
  {
    var p := Pow2(k - 1);
    assert base * (2 * p - 1) == base * (p - 1) + base * p;
  }

  lemma NatStep(k: nat, n: nat)
    requires k > 0
    ensures k * n == (k - 1) * n + n
  {
  }

  lemma RealStep(k: nat, c: real)
    requires k > 0
    ensures k as real * c == (k - 1) as real * c + c
  {
  }
}

/** The PWM blinky of button_led_pwm/src/main.c: calibrate the largest period
    the hardware accepts, then sweep the period between MIN_PERIOD and that
    maximum, doubling and halving. All arithmetic is on `uint32_t`. The
    driver call `pwm_set_dt(spec, period, pulse)` is the parameter `accepts`:
    it succeeds (returns 0) exactly when `accepts(period, pulse)`. */
module PwmBlinky {

  const U32_LIMIT := 0x1_0000_0000
  /** PWM_SEC(1U), in nanoseconds. */
  const NSEC_PER_SEC := 1_000_000_000
  const MAX_PERIOD := NSEC_PER_SEC
  /** `PWM_SEC(1U) / 128U`. */
  const MIN_PERIOD := NSEC_PER_SEC / 128
  /** `4U * MIN_PERIOD`: the macro has no parentheses, so this is
      `(4U * PWM_SEC(1U)) / 128U`, with the product taken modulo 2^32. */
  const CALIBRATION_FLOOR := ((4 * NSEC_PER_SEC) % U32_LIMIT) / 128
  /** `MIN_PERIOD * 2U`, which expands to `(PWM_SEC(1U) / 128U) * 2U`. */
  const MIN_RESTART := ((NSEC_PER_SEC / 128) * 2) % U32_LIMIT

  /** The product in the unparenthesised macros does not wrap, so they mean
      what they say. */
  lemma MacroConstants()
    ensures CALIBRATION_FLOOR == 4 * MIN_PERIOD == 31_250_000
    ensures MIN_RESTART == 2 * MIN_PERIOD == 15_625_000
  {
  }

  function Pow2(k: nat): (r: nat)
    ensures r >= 1
  {
    if k == 0 then 1 else 2 * Pow2(k - 1)
  }

  /** The value `max_period` has after `k` halvings: MAX_PERIOD / 2^k. */
  function Candidate(k: nat): (r: nat)
    ensures r <= MAX_PERIOD
    ensures k > 0 ==> r <= Candidate(k - 1)
  {
    if k == 0 then MAX_PERIOD else Candidate(k - 1) / 2
  }

  /** Halving a quotient by `d` is dividing by `2 * d`. */
  lemma HalveQuotient(n: nat, d: nat)
    requires d > 0
    ensures (n / d) / 2 == n / (2 * d)
  {
    var q, r := n / d, n % d;
    var q2, r2 := q / 2, q % 2;
    assert n == q * d + r;
    assert q == 2 * q2 + r2;
    assert n == q2 * (2 * d) + (r2 * d + r) by {
      assert q * d == (2 * q2 + r2) * d == q2 * (2 * d) + r2 * d;
    }
    assert 0 <= r2 * d + r < 2 * d;
    DivUnique(n, 2 * d, q2, r2 * d + r);
  }

  /** Euclidean division has one quotient. */
  lemma DivUnique(n: nat, d: nat, q: nat, r: nat)
    requires d > 0 && r < d && n == q * d + r
    ensures n / d == q
  {
    var q', r' := n / d, n % d;
    assert n == q' * d + r';
    if q > q' {
      assert q * d == (q - q') * d + q' * d;
      MulAtLeast(q - q', d);
    } else if q < q' {
      assert q' * d == (q' - q) * d + q * d;
      MulAtLeast(q' - q, d);
    }
  }

  lemma MulAtLeast(x: nat, d: nat)
    requires x >= 1
    ensures x * d >= d
  {
    assert x * d == (x - 1) * d + d;
  }

  /** After `k` halvings `max_period` is exactly MAX_PERIOD / 2^k. */
  lemma {:induction false} CandidateIsQuotient(k: nat)
    ensures Candidate(k) == MAX_PERIOD / Pow2(k)
  {
    if k == 0 {
      assert Pow2(0) == 1;
      assert Candidate(0) == MAX_PERIOD / 1;
    } else {
      var c, d := Candidate(k - 1), Pow2(k - 1);
      assert c == MAX_PERIOD / d by {
        CandidateIsQuotient(k - 1);
      }
      assert c / 2 == MAX_PERIOD / (2 * d) by {
        HalveQuotient(MAX_PERIOD, d);
      }
      assert Pow2(k) == 2 * d;
    }
  }

  /** Halving stays at or above the calibration floor exactly for the first
      five halvings; the sixth drops below it. */
  lemma {:induction false} CandidateAboveFloor(k: nat)
    ensures Candidate(k) >= CALIBRATION_FLOOR <==> k <= 5
  {
    MacroConstants();
    if k > 6 {
      CandidateAboveFloor(k - 1);
    } else if k == 6 {
      assert Candidate(6) == 15_625_000;
    } else {
      assert Candidate(5) == 31_250_000;
    }
  }

  /** The calibration loop of `main`: starting from MAX_PERIOD, halve
      `max_period` until `pwm_set_dt(max_period, max_period / 2)` succeeds,
      giving up once a halved value is below `4 * MIN_PERIOD`. */
  method Calibrate(accepts: (nat, nat) -> bool) returns (ok: bool, maxPeriod: nat, halvings: nat)
    ensures maxPeriod == Candidate(halvings)
    ensures forall j :: 0 <= j < halvings ==> !accepts(Candidate(j), Candidate(j) / 2)
    ensures ok <==> halvings <= 5
    ensures ok ==> accepts(maxPeriod, maxPeriod / 2)
    ensures ok ==> 4 * MIN_PERIOD <= maxPeriod <= MAX_PERIOD
    ensures !ok ==> halvings == 6 && maxPeriod < 4 * MIN_PERIOD
  {
    MacroConstants();
    maxPeriod, halvings := MAX_PERIOD, 0;
    while !accepts(maxPeriod, maxPeriod / 2)
      invariant halvings <= 5
      invariant maxPeriod == Candidate(halvings)
      invariant forall j :: 0 <= j < halvings ==> !accepts(Candidate(j), Candidate(j) / 2)
      decreases 5 - halvings
    {
      maxPeriod := maxPeriod / 2;
      halvings := halvings + 1;
      CandidateAboveFloor(halvings);
      if maxPeriod < CALIBRATION_FLOOR {
        return false, maxPeriod, halvings;
      }
    }
    CandidateAboveFloor(halvings);
    ok := true;
  }

  /** The sweep state: `period` and `dir` (set: doubling; clear: halving). */
  datatype Sweep = Sweep(period: nat, dir: bool)

  /** The update at the end of each pass of the sweep loop, on `uint32_t`.
      Whatever the maximum, the result is clamped from above unless it is the
      restart at the bottom, and from below unless it is the restart at the
      top; the direction changes only at one of those two restarts. */
  function NextSweep(s: Sweep, maxPeriod: nat): (r: Sweep)
    ensures r.period <= maxPeriod || r == Sweep(MIN_RESTART, true)
    ensures r.period >= MIN_PERIOD || r == Sweep(maxPeriod / 2, false)
    ensures r.dir != s.dir ==> r == Sweep(maxPeriod / 2, false) || r == Sweep(MIN_RESTART, true)
  {
    var period := if s.dir then (s.period * 2) % U32_LIMIT else s.period / 2;
    if period > maxPeriod then Sweep(maxPeriod / 2, false)
    else if period < MIN_PERIOD then Sweep(MIN_RESTART, true)
    else Sweep(period, s.dir)
  }

  /** A maximum the calibration can produce. */
  predicate Calibrated(maxPeriod: nat) {
    4 * MIN_PERIOD <= maxPeriod <= MAX_PERIOD
  }

  predicate InRange(period: nat, maxPeriod: nat) {
    MIN_PERIOD <= period <= maxPeriod
  }

  /** One update keeps the period within [MIN_PERIOD, max_period], and the
      doubling never wraps: it either doubles or halves as `dir` says, or
      bounces off an end and turns round. */
  lemma NextSweepInRange(s: Sweep, maxPeriod: nat)
    requires Calibrated(maxPeriod) && InRange(s.period, maxPeriod)
    ensures s.period * 2 < U32_LIMIT
    ensures InRange(NextSweep(s, maxPeriod).period, maxPeriod)
    ensures s.dir && s.period * 2 > maxPeriod ==> NextSweep(s, maxPeriod) == Sweep(maxPeriod / 2, false)
    ensures !s.dir && s.period / 2 < MIN_PERIOD ==> NextSweep(s, maxPeriod) == Sweep(2 * MIN_PERIOD, true)
    ensures s.dir && s.period * 2 <= maxPeriod ==> NextSweep(s, maxPeriod) == Sweep(s.period * 2, true)
    ensures !s.dir && s.period / 2 >= MIN_PERIOD ==> NextSweep(s, maxPeriod) == Sweep(s.period / 2, false)
  {
    MacroConstants();
  }

  /** One call of `pwm_set_dt`. */
  datatype PwmCall = PwmCall(period: nat, pulse: nat)

  /** The `while (1)` sweep of `main`, run for at most `passes` passes. It
      stops early, as `main` returns, when `pwm_set_dt` fails. `sweeps[i]` is
      the state at the `i`-th call and `calls[i]` the call itself: its period
      is within [MIN_PERIOD, max_period] and its pulse is half the period. */
  method SweepLoop(maxPeriod: nat, accepts: (nat, nat) -> bool, passes: nat)
    returns (sweeps: seq<Sweep>, calls: seq<PwmCall>, failed: bool)
    requires Calibrated(maxPeriod)
    ensures |calls| == |sweeps| <= passes
    ensures sweeps != [] ==> sweeps[0] == Sweep(maxPeriod, false)
    ensures forall i :: 0 < i < |sweeps| ==> sweeps[i] == NextSweep(sweeps[i - 1], maxPeriod)
    ensures forall i :: 0 <= i < |calls| ==> calls[i] == PwmCall(sweeps[i].period, sweeps[i].period / 2)
    ensures forall i :: 0 <= i < |calls| ==> InRange(calls[i].period, maxPeriod)
    ensures forall i :: 0 <= i < |calls| - 1 ==> accepts(calls[i].period, calls[i].pulse)
    ensures failed ==> calls != [] && !accepts(calls[|calls| - 1].period, calls[|calls| - 1].pulse)
    ensures !failed ==> |calls| == passes && (calls != [] ==> accepts(calls[|calls| - 1].period, calls[|calls| - 1].pulse))
  {
    var sweep := Sweep(maxPeriod, false);
    sweeps, calls, failed := [], [], false;
    while |calls| < passes
      invariant |calls| == |sweeps| <= passes
      invariant InRange(sweep.period, maxPeriod)
      invariant sweeps != [] ==> sweeps[0] == Sweep(maxPeriod, false)
      invariant sweeps == [] ==> sweep == Sweep(maxPeriod, false)
      invariant sweeps != [] ==> sweep == NextSweep(sweeps[|sweeps| - 1], maxPeriod)
      invariant forall i :: 0 < i < |sweeps| ==> sweeps[i] == NextSweep(sweeps[i - 1], maxPeriod)
      invariant forall i :: 0 <= i < |calls| ==> calls[i] == PwmCall(sweeps[i].period, sweeps[i].period / 2)
      invariant forall i :: 0 <= i < |calls| ==> InRange(calls[i].period, maxPeriod)
      invariant forall i :: 0 <= i < |calls| ==> accepts(calls[i].period, calls[i].pulse)
    {
      var call := PwmCall(sweep.period, sweep.period / 2);
      sweeps, calls := sweeps + [sweep], calls + [call];
      if !accepts(call.period, call.pulse) {
        return sweeps, calls, true;
      }
      NextSweepInRange(sweep, maxPeriod);
      sweep := NextSweep(sweep, maxPeriod);
    }
  }

  /** `main` of button_led_pwm: when the device is ready, calibrate, then sweep
      from the calibrated maximum. `probes` are the calibration calls of
      `pwm_set_dt`, `calls` those of the sweep. */
  method PwmMain(ready: bool, accepts: (nat, nat) -> bool, passes: nat)
    returns (calibrated: bool, maxPeriod: nat, probes: seq<PwmCall>, calls: seq<PwmCall>)
    ensures !ready ==> !calibrated && probes == [] && calls == []
    ensures ready ==> 1 <= |probes| <= 6
    ensures forall j :: 0 <= j < |probes| ==> probes[j] == PwmCall(Candidate(j), Candidate(j) / 2)
    ensures forall j :: 0 <= j < |probes| - 1 ==> !accepts(probes[j].period, probes[j].pulse)
    ensures calibrated <==> ready && accepts(probes[|probes| - 1].period, probes[|probes| - 1].pulse)
    ensures calibrated ==> maxPeriod == probes[|probes| - 1].period && Calibrated(maxPeriod)
    ensures !calibrated ==> calls == []
    ensures forall i :: 0 <= i < |calls| ==>
      InRange(calls[i].period, maxPeriod) && calls[i].pulse == calls[i].period / 2
  {
    probes, calls := [], [];
    if !ready {
      return false, 0, probes, calls;
    }
    var halvings;
    calibrated, maxPeriod, halvings := Calibrate(accepts);
    var tried := if calibrated then halvings + 1 else halvings;
    probes := seq(tried, j requires 0 <= j < tried => PwmCall(Candidate(j), Candidate(j) / 2));
    if calibrated {
      var sweeps, failed;
      sweeps, calls, failed := SweepLoop(maxPeriod, accepts, passes);
    }
  }
}

/** The fixed-point arithmetic of leocc.c in its integer widths. */
module LeoccMath {
  import opened Widths

  const BW_UNIT: nat := 0x100_0000
  const LEOCC_UNIT: nat := 0x100
  const TCP_INIT_CWND: nat := 10

  /** USEC_PER_SEC less the pacing margin of one percent. */
  const MARGIN: nat := 990000

  /** `leocc_rate_bytes_per_sec`. */
  function Rate(bw: nat, mss: nat, gain: nat): nat {
    Scale(bw * mss % UINT64 * gain % UINT64)
  }

  /** The gain's scale is taken out, the margin applied, and the bandwidth's scale taken out. */
  function Scale(x: nat): nat {
    x / LEOCC_UNIT * MARGIN % UINT64 / BW_UNIT
  }

  /** The bandwidth, packet size, gain and margin multiplied exactly; one byte per second is 2^32 of it. */
  function ExactRate(bw: nat, mss: nat, gain: nat): nat {
    bw * mss * gain * 990000
  }

  /** Below 2^72 no 64-bit intermediate overflows, and the rate is at most the exact one and less than two bytes per
      second below it. */
  lemma RateIsExact(bw: nat, mss: nat, gain: nat)
    requires ExactRate(bw, mss, gain) < 0x1_00_0000_0000_0000_0000
    ensures Rate(bw, mss, gain) * UINT32 <= ExactRate(bw, mss, gain) < (Rate(bw, mss, gain) + 2) * UINT32
  {
    hide Scale;
    NothingWraps(bw * mss, gain);
    ScaledDown(bw * mss * gain);
  }

  lemma NothingWraps(a: nat, gain: nat)
    requires a * gain * MARGIN < 0x1_00_0000_0000_0000_0000
    ensures a % UINT64 * gain % UINT64 == a * gain
  {
    var x := a * gain;
    assert x < UINT64;
    if gain == 0 {
      assert a % UINT64 * gain == 0;
    } else {
      ProductAtLeast(a, gain);
      assert a % UINT64 == a;
    }
  }

  lemma ProductAtLeast(a: nat, b: nat)
    requires b > 0
    ensures a <= a * b
  {
    assert a * b == a + a * (b - 1);
  }

  /** The two shifts lose less than two units together. */
  lemma ScaledDown(x: nat)
    requires x * MARGIN < 0x1_00_0000_0000_0000_0000
    ensures Scale(x) * UINT32 <= x * MARGIN < (Scale(x) + 2) * UINT32
  {
    var q, rest := x / LEOCC_UNIT, x % LEOCC_UNIT;
    assert x == q * LEOCC_UNIT + rest;
    assert x * MARGIN == q * MARGIN * LEOCC_UNIT + rest * MARGIN;
  }

  /** `leocc_bdp`: bandwidth times minimum round-trip time times gain, in packets, rounded up. `~0U` stands for a minimum
      round-trip time that is not known. */
  function Bdp(bw: nat, minRtt: nat, gain: nat): nat {
    if minRtt == UINT32 - 1 then TCP_INIT_CWND
    else ((bw * minRtt * gain % UINT64 / LEOCC_UNIT + BW_UNIT - 1) % UINT64 / BW_UNIT) % UINT32
  }

  /** The product is within the 64 bits and the packets within the 32 bits of the code. */
  predicate Fits(bw: nat, minRtt: nat, gain: nat) {
    minRtt < UINT32 - 1 && bw * minRtt * gain < (UINT32 - 1) * UINT32
  }

  /** Then the result is less than one packet above the exact product and less than a 2^-24th of one below it. */
  lemma BdpIsExact(bw: nat, minRtt: nat, gain: nat)
    requires Fits(bw, minRtt, gain)
    ensures Bdp(bw, minRtt, gain) * UINT32 < bw * minRtt * gain + UINT32
    ensures bw * minRtt * gain < Bdp(bw, minRtt, gain) * UINT32 + LEOCC_UNIT
  {
    RoundedUp(bw * minRtt * gain);
  }

  lemma RoundedUp(x: nat)
    requires x < (UINT32 - 1) * UINT32
    ensures var y := x % UINT64 / LEOCC_UNIT;
            var r := (y + BW_UNIT - 1) % UINT64 / BW_UNIT % UINT32;
            && r == (x / LEOCC_UNIT + BW_UNIT - 1) / BW_UNIT
            && r * UINT32 < x + UINT32 && x < r * UINT32 + LEOCC_UNIT
  {}

  /** More bandwidth or more gain never means fewer packets. */
  lemma BdpMonotone(bw1: nat, bw2: nat, minRtt: nat, gain1: nat, gain2: nat)
    requires bw1 <= bw2 && gain1 <= gain2 && Fits(bw2, minRtt, gain2)
    ensures Bdp(bw1, minRtt, gain1) <= Bdp(bw2, minRtt, gain2)
  {
    var x1, x2 := bw1 * minRtt * gain1, bw2 * minRtt * gain2;
    assert x1 <= x2 by {
      MulMonotone(bw1, bw2, minRtt);
      MulMonotone(bw1 * minRtt, bw2 * minRtt, gain1);
      MulMonotone(gain1, gain2, bw2 * minRtt);
    }
    RoundedUp(x1);
    RoundedUp(x2);
  }

  lemma MulMonotone(a: nat, b: nat, c: nat)
    requires a <= b
    ensures a * c <= b * c && c * a <= c * b
  {
    assert b * c == a * c + (b - a) * c;
    assert (b - a) * c >= 0;
  }

  /** `leocc_quantization_budget`; `probing` is the first phase of the cruise cycle. */
  function Budget(cwnd: nat, tsoGoal: nat, probing: bool): nat {
    var even := ((cwnd + 3 * tsoGoal) % UINT32 + 1) % UINT32 / 2 * 2;
    if probing then (even + 2) % UINT32 else even
  }

  /** `leocc_inflight`. */
  function Inflight(bw: nat, minRtt: nat, gain: nat, tsoGoal: nat, probing: bool): nat {
    Budget(Bdp(bw, minRtt, gain), tsoGoal, probing)
  }

  /** While nothing wraps, the budget is at least three segments more than the bandwidth-delay product, even if that is,
      and monotone. */
  lemma InflightMonotone(bw1: nat, bw2: nat, minRtt: nat, gain1: nat, gain2: nat, tsoGoal: nat, probing: bool)
    requires bw1 <= bw2 && gain1 <= gain2 && Fits(bw2, minRtt, gain2)
    requires Bdp(bw2, minRtt, gain2) + 3 * tsoGoal + 3 < UINT32
    ensures Inflight(bw1, minRtt, gain1, tsoGoal, probing) <= Inflight(bw2, minRtt, gain2, tsoGoal, probing)
    ensures Inflight(bw2, minRtt, gain2, tsoGoal, probing) % 2 == 0
    ensures Inflight(bw2, minRtt, gain2, tsoGoal, probing) >= Bdp(bw2, minRtt, gain2) + 3 * tsoGoal
  {
    BdpMonotone(bw1, bw2, minRtt, gain1, gain2);
    hide Bdp, Fits, Budget;
    BudgetMonotone(Bdp(bw1, minRtt, gain1), Bdp(bw2, minRtt, gain2), tsoGoal, probing);
  }

  /** What the flight is compared with: the bandwidth-delay product and three segments, rounded up to an even number, and two more in
      the probing phase. Without a known minimum round-trip time the product counts as ten packets. */
  lemma InflightExactly(bw: nat, minRtt: nat, gain: nat, tsoGoal: nat, probing: bool)
    requires Bdp(bw, minRtt, gain) + 3 * tsoGoal + 3 < UINT32
    ensures var n, flight := Bdp(bw, minRtt, gain) + 3 * tsoGoal, Inflight(bw, minRtt, gain, tsoGoal, probing);
            flight == n + n % 2 + if probing then 2 else 0
    ensures minRtt == 0xFFFF_FFFF ==> Bdp(bw, minRtt, gain) == 10
  {
    UnknownRtt(bw, gain);
    hide Budget, Bdp;
    BudgetPlain(Bdp(bw, minRtt, gain), tsoGoal, probing);
    UpToEven(Bdp(bw, minRtt, gain) + 3 * tsoGoal);
  }

  lemma UnknownRtt(bw: nat, gain: nat)
    ensures Bdp(bw, 0xFFFF_FFFF, gain) == 10
  {}

  lemma UpToEven(n: nat)
    ensures (n + 1) / 2 * 2 == n + n % 2
  {}

  lemma BudgetMonotone(c1: nat, c2: nat, tsoGoal: nat, probing: bool)
    requires c1 <= c2 && c2 + 3 * tsoGoal + 3 < UINT32
    ensures Budget(c1, tsoGoal, probing) <= Budget(c2, tsoGoal, probing)
    ensures Budget(c2, tsoGoal, probing) % 2 == 0 && Budget(c2, tsoGoal, probing) >= c2 + 3 * tsoGoal
  {
    BudgetPlain(c1, tsoGoal, probing);
    BudgetPlain(c2, tsoGoal, probing);
  }

  lemma BudgetPlain(c: nat, tsoGoal: nat, probing: bool)
    requires c + 3 * tsoGoal + 3 < UINT32
    ensures Budget(c, tsoGoal, probing) == (c + 3 * tsoGoal + 1) / 2 * 2 + if probing then 2 else 0
  {
    Small(c + 3 * tsoGoal);
    Small(c + 3 * tsoGoal + 1);
    Small((c + 3 * tsoGoal + 1) / 2 * 2 + 2);
  }

  lemma Small(x: nat)
    requires x < UINT32
    ensures x % UINT32 == x
  {}
}

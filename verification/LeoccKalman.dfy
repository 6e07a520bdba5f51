/** The integer Kalman filters of leocc_main, over bandwidth and over round-trip time. */
module LeoccKalman {
  import opened Arithmetic
  import opened LeoccMath
  import opened Widths

  /** `p_post` (a 5-bit field), the last gain and the estimate. */
  datatype Filter = Filter(p: nat, gain: nat, hat: nat)

  function InitFilter(): Filter {
    Filter(25, 0, 0)
  }

  const VAR: nat := 4
  const FIELD: nat := 32

  /** One update: variances Q and R are both 4. The estimate is computed in 32 bits. */
  function Update(f: Filter, z: nat): Filter {
    var prior := (f.p + VAR) % FIELD;
    var gain := prior * LEOCC_UNIT / (prior + VAR);
    Filter((LEOCC_UNIT - gain) * prior / LEOCC_UNIT % FIELD, gain,
           ((LEOCC_UNIT - gain) * f.hat + gain * z) % UINT32 / LEOCC_UNIT)
  }

  function UpdateAll(f: Filter, zs: seq<nat>): Filter
    decreases |zs|
  {
    if zs == [] then f else UpdateAll(Update(f, zs[0]), zs[1..])
  }

  /** Samples and estimates below this bound never overflow. */
  const SAMPLE_BOUND: nat := 0x100_0000

  /** The variance after none, one, or more updates. */
  predicate Reached(f: Filter) {
    f.p in {25, 3, 2} && f.hat < SAMPLE_BOUND
  }

  predicate InRange(zs: seq<nat>) {
    forall i | 0 <= i < |zs| :: zs[i] < SAMPLE_BOUND
  }

  /** One update from any reachable filter: the 5-bit variance does not overflow, the gain is one of three, the 32-bit sum is
      exact, and the estimate moves between its old value and the sample. */
  lemma UpdateKeeps(f: Filter, z: nat)
    requires Reached(f) && z < SAMPLE_BOUND
    ensures var g := Update(f, z);
            && f.p + VAR < FIELD && Reached(g) && g.p != 25
            && g.gain == (if f.p == 25 then 224 else if f.p == 3 then 162 else 153)
            && g.hat == ((LEOCC_UNIT - g.gain) * f.hat + g.gain * z) / LEOCC_UNIT
            && (f.hat <= z ==> f.hat <= g.hat <= z) && (z <= f.hat ==> z <= g.hat <= f.hat)
  {
    var g := GainOf(f.p);
    Gains(f.p);
    Blend(f.hat, z, g);
    Exact((LEOCC_UNIT - g) * f.hat + g * z);
  }

  function GainOf(p: nat): nat {
    if p == 25 then 224 else if p == 3 then 162 else 153
  }

  lemma Gains(p: nat)
    requires p in {25, 3, 2}
    ensures var prior := (p + VAR) % FIELD;
            && prior * LEOCC_UNIT / (prior + VAR) == GainOf(p)
            && (LEOCC_UNIT - GainOf(p)) * prior / LEOCC_UNIT % FIELD == (if p == 25 then 3 else 2)
  {}

  lemma Exact(x: nat)
    requires x < UINT32
    ensures x % UINT32 == x
  {}

  lemma Blend(hat: nat, z: nat, gain: nat)
    requires hat < SAMPLE_BOUND && z < SAMPLE_BOUND && gain in {153, 162, 224}
    ensures (LEOCC_UNIT - gain) * hat + gain * z < UINT32
    ensures var r := ((LEOCC_UNIT - gain) * hat + gain * z) / LEOCC_UNIT;
            (hat <= z ==> hat <= r <= z) && (z <= hat ==> z <= r <= hat)
  {}

  /** The bound is sharp: with estimate and sample both equal to it the 32-bit sum is 2^32 and the estimate becomes zero. */
  lemma BoundIsSharp(p: nat, gain: nat)
    requires p in {25, 3, 2}
    ensures Update(Filter(p, gain, SAMPLE_BOUND), SAMPLE_BOUND).hat == 0
  {
    Gains(p);
    assert (LEOCC_UNIT - GainOf(p)) * SAMPLE_BOUND + GainOf(p) * SAMPLE_BOUND == UINT32;
  }

  /** On every run from `leocc_init` with samples below the bound: whatever range holds the first estimate and all samples
      also holds the last estimate. */
  lemma {:induction false} RunKeeps(f: Filter, zs: seq<nat>, lo: nat, hi: nat)
    requires Reached(f) && InRange(zs)
    requires lo <= f.hat <= hi && forall i | 0 <= i < |zs| :: lo <= zs[i] <= hi
    ensures Reached(UpdateAll(f, zs)) && (zs != [] ==> UpdateAll(f, zs).gain in {224, 162, 153})
    ensures lo <= UpdateAll(f, zs).hat <= hi
    decreases |zs|
  {
    if zs != [] {
      UpdateKeeps(f, zs[0]);
      var g, rest := Update(f, zs[0]), zs[1..];
      assert forall i | 0 <= i < |rest| :: rest[i] == zs[i + 1];
      hide Update;
      RunKeeps(g, rest, lo, hi);
      if rest == [] {
        assert UpdateAll(g, rest) == g;
      }
    }
  }

  /** The gains are 224, then 162, then 153 of 256 for ever. */
  lemma {:induction false} GainsFrom(f: Filter, zs: seq<nat>)
    requires Reached(f) && InRange(zs) && zs != []
    ensures var r := UpdateAll(f, zs);
            r.gain == if f.p == 25 then (if |zs| == 1 then 224 else if |zs| == 2 then 162 else 153)
                      else if f.p == 3 && |zs| == 1 then 162 else 153
    decreases |zs|
  {
    UpdateKeeps(f, zs[0]);
    NextVariance(f, zs[0]);
    var g, rest := Update(f, zs[0]), zs[1..];
    assert forall i | 0 <= i < |rest| :: rest[i] == zs[i + 1];
    hide Update;
    if rest == [] {
      assert UpdateAll(g, rest) == g;
    } else {
      GainsFrom(g, rest);
    }
  }

  /** So from `leocc_init` on, whatever the samples. */
  lemma GainsInOrder(zs: seq<nat>)
    requires InRange(zs) && zs != []
    ensures UpdateAll(InitFilter(), zs).gain == if |zs| == 1 then 224 else if |zs| == 2 then 162 else 153
  {
    GainsFrom(InitFilter(), zs);
  }

  lemma NextVariance(f: Filter, z: nat)
    requires Reached(f)
    ensures Update(f, z).p == if f.p == 25 then 3 else 2
  {
    Gains(f.p);
  }

  // A constant sample

  function Error(f: Filter, z: nat): nat {
    if f.hat <= z then z - f.hat else f.hat - z
  }

  /** An update halves the error, rounded up, and never crosses the sample: from above it is strictly closer until it is
      there; from below until it is at most one short. */
  lemma ErrorHalves(f: Filter, z: nat)
    requires Reached(f) && z < SAMPLE_BOUND
    ensures var g := Update(f, z);
            && Reached(g)
            && Error(g, z) <= (Error(f, z) + 1) / 2
            && (f.hat > z ==> g.hat >= z && Error(g, z) <= Error(f, z) / 2)
            && (f.hat <= z ==> g.hat <= z)
            && (f.hat in {z, z - 1} ==> g.hat == f.hat)
            && (f.hat !in {z, z - 1} ==> Error(g, z) < Error(f, z))
  {
    UpdateKeeps(f, z);
    var gain := Update(f, z).gain;
    HalfWay(f.hat, z, gain);
  }

  lemma HalfWay(hat: nat, z: nat, gain: nat)
    requires hat < SAMPLE_BOUND && z < SAMPLE_BOUND && gain in {153, 162, 224}
    ensures var r := ((LEOCC_UNIT - gain) * hat + gain * z) / LEOCC_UNIT;
            && (hat > z ==> z <= r && 2 * (r - z) <= hat - z)
            && (hat <= z ==> r <= z && 2 * (z - r) <= z - hat + 1 && (hat + 1 >= z ==> r == hat))
  {}

  /** `n` updates with the same sample. */
  function Repeat(f: Filter, z: nat, n: nat): Filter
    decreases n
  {
    if n == 0 then f else Repeat(Update(f, z), z, n - 1)
  }

  lemma {:induction false} ErrorAfter(f: Filter, z: nat, n: nat)
    requires Reached(f) && z < SAMPLE_BOUND && Error(f, z) <= Pow2(n)
    ensures Reached(Repeat(f, z, n)) && Error(Repeat(f, z, n), z) <= 1
    decreases n
  {
    hide Update, Reached, Error;
    if n > 0 {
      ErrorHalves(f, z);
      ErrorAfter(Update(f, z), z, n - 1);
    }
  }

  lemma {:induction false} Settled(f: Filter, z: nat, n: nat)
    requires Reached(f) && z < SAMPLE_BOUND && f.hat in {z, z - 1}
    ensures Repeat(f, z, n).hat == f.hat
    decreases n
  {
    hide Update, Reached;
    if n > 0 {
      ErrorHalves(f, z);
      Settled(Update(f, z), z, n - 1);
    }
  }

  lemma {:induction false} RepeatAdd(f: Filter, z: nat, m: nat, n: nat)
    ensures Repeat(f, z, m + n) == Repeat(Repeat(f, z, m), z, n)
    decreases m
  {
    hide Update;
    if m > 0 {
      RepeatAdd(Update(f, z), z, m - 1, n);
    }
  }

  lemma BoundIsPow2()
    ensures Pow2(24) == SAMPLE_BOUND
  {
    assert Pow2(6) == 64;
    Pow2Split(6, 6);
    Pow2Split(12, 12);
  }

  /** Whatever the estimate was, after 25 updates with the same sample it is the sample or one less, and it stays there. */
  lemma SettlesWithin25(f: Filter, z: nat, more: nat)
    requires Reached(f) && z < SAMPLE_BOUND
    ensures Repeat(f, z, 25 + more).hat in {z, z - 1}
    ensures Repeat(f, z, 25 + more).hat == Repeat(f, z, 25).hat
  {
    hide Update;
    BoundIsPow2();
    ErrorAfter(f, z, 24);
    var g := Repeat(f, z, 24);
    ErrorHalves(g, z);
    RepeatAdd(f, z, 24, 1);
    assert Repeat(g, z, 1) == Repeat(Update(g, z), z, 0) == Update(g, z);
    var h := Update(g, z);
    assert h.hat in {z, z - 1};
    RepeatAdd(f, z, 25, more);
    Settled(h, z, more);
  }
}

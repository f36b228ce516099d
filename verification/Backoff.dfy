/** Retry backoff: the saturating Fibonacci curve, its cap, and the deterministic jitter. */
module Backoff {
  import opened Records
  import opened Words

  const U64_MAX: int := 0xFFFF_FFFF_FFFF_FFFF
  const U128_MAX: int := 0xFFFF_FFFF_FFFF_FFFF_FFFF_FFFF_FFFF_FFFF
  const U32_MAX: int := 0xFFFF_FFFF

  /** One millisecond, the floor of a base delay. */
  const MIN_BASE: int := 1_000_000

  /** The longest `std::time::Duration`: `u64::MAX` seconds and 999 999 999 nanoseconds. */
  const MAX_STD: int := 0xFFFF_FFFF_FFFF_FFFF * 1_000_000_000 + 999_999_999

  type StdDuration = n: int | 0 <= n <= MAX_STD

  function Max(a: int, b: int): int {
    if a < b then b else a
  }

  function Min(a: int, b: int): int {
    if a < b then a else b
  }

  /** A backoff as `Backoff::new` can build it. */
  datatype Curve = Curve(base: int, cap: int) {
    ghost predicate Valid() {
      MIN_BASE <= base <= cap <= MAX_STD
    }
  }

  /** Degenerate inputs are clamped: a usable base, and a cap no lower than it. */
  function NewCurve(base: StdDuration, cap: StdDuration): (c: Curve)
    ensures c.Valid()
    ensures MIN_BASE <= base <= cap ==> c == Curve(base, cap)
    ensures base < MIN_BASE ==> c.base == MIN_BASE
    ensures cap <= c.base ==> c.cap == c.base
  {
    var b := Max(base, MIN_BASE);
    Curve(b, Max(cap, b))
  }

  // ----------------------------------------------------------------- the curve

  /** The Fibonacci numbers, unbounded. */
  function Fib(n: nat): nat {
    if n <= 1 then n else Fib(n - 1) + Fib(n - 2)
  }

  lemma {:induction false} FibMonotone(m: nat, n: nat)
    requires 1 <= m <= n
    ensures 1 <= Fib(m) <= Fib(n)
    decreases n
  {
    if m < n {
      FibMonotone(m, n - 1);
    } else if n > 2 {
      FibMonotone(1, n - 1);
    }
  }

  /** `fib(n) - 1` by the saturating loop: exact until the true value leaves 64 bits, and pinned just
      below the top from then on. */
  method FibMinusOne(n: nat) returns (r: int)
    requires n <= U32_MAX
    ensures n >= 1 ==> r == Min(Fib(n), U64_MAX) - 1
    ensures n <= 2 ==> r == 0
  {
    if n <= 2 {
      return 0;
    }
    var prev, curr := 1, 1;
    for i := 3 to n + 1
      invariant prev == Min(Fib(i - 2), U64_MAX)
      invariant curr == Min(Fib(i - 1), U64_MAX)
    {
      var next := Min(prev + curr, U64_MAX);
      prev := curr;
      curr := next;
    }
    FibMonotone(1, n);
    r := if curr < 1 then 0 else curr - 1;
  }

  /** The delay the documentation promises, over unbounded integers. There is no zeroth failure; the
      code gives it no delay. */
  function IdealDelay(c: Curve, attempt: nat): int {
    if attempt == 0 then 0 else Min(Min(c.base * (Fib(attempt) - 1), c.cap), U64_MAX)
  }

  /** The un-jittered delay. Neither the 64-bit saturation of the curve nor the 128-bit saturation of
      the product can be observed: the result is the ideal one. */
  method BaseDelay(c: Curve, attempt: nat) returns (delay: int)
    requires c.Valid() && attempt <= U32_MAX
    ensures delay == IdealDelay(c, attempt)
    ensures 0 <= delay <= c.cap
  {
    var multiplier := FibMinusOne(attempt);
    if attempt >= 1 {
      FibMonotone(1, attempt);
      SaturationHidden(c, Fib(attempt));
      ProductGrows(c.base, 0, multiplier);
    }
    var product := Min(c.base * multiplier, U128_MAX);
    delay := Min(Min(product, c.cap), U64_MAX);
  }

  lemma ProductGrows(base: int, m: int, n: int)
    requires base >= 0 && m <= n
    ensures base * m <= base * n
  {
  }

  lemma SaturationHidden(c: Curve, fib: nat)
    requires c.Valid() && fib >= 1
    ensures Min(Min(Min(c.base * (Min(fib, U64_MAX) - 1), U128_MAX), c.cap), U64_MAX)
         == Min(Min(c.base * (fib - 1), c.cap), U64_MAX)
  {
    if fib > U64_MAX {
      ProductGrows(c.base, U64_MAX - 1, fib - 1);
      assert c.base * (U64_MAX - 1) >= U64_MAX;
    }
  }

  /** Later attempts never wait less, and the first two do not wait at all. */
  lemma DelayMonotone(c: Curve, m: nat, n: nat)
    requires c.Valid() && m <= n
    ensures 0 <= IdealDelay(c, m) <= IdealDelay(c, n) <= c.cap
    ensures n <= 2 ==> IdealDelay(c, n) == 0
  {
    if n >= 1 {
      FibMonotone(1, n);
      ProductGrows(c.base, 0, Fib(n) - 1);
    }
    if m >= 1 {
      FibMonotone(m, n);
      ProductGrows(c.base, Fib(m) - 1, Fib(n) - 1);
      ProductGrows(c.base, 0, Fib(m) - 1);
    }
  }

  // ----------------------------------------------------------------- the mixer

  const GAMMA: int := 0x9E37_79B9_7F4A_7C15
  const MUL1: int := 0xBF58_476D_1CE4_E5B9
  const MUL2: int := 0x94D0_49BB_1331_11EB

  /** The inverses of the two odd multipliers modulo 2^64. */
  const UNMUL1: int := 0x96DE_1B17_3F11_9089
  const UNMUL2: int := 0x3196_42B2_D24D_8EC3

  /** The three rounds of the finalizer over its two multipliers, and their inverse. */
  function Rounds(z: nat, c1: nat, c2: nat): nat {
    XorShift(Round(Round(z, 30, c1), 27, c2), 31)
  }

  function Unrounds(w: nat, d1: nat, d2: nat): nat {
    Unround(Unround(UnxorShift(w, 31), 27, d2), 30, d1)
  }

  lemma RoundsUndone(z: nat, c1: nat, d1: nat, c2: nat, d2: nat)
    requires z < TWO_64 && Inverses(c1, d1) && Inverses(c2, d2)
    ensures Rounds(z, c1, c2) < TWO_64 && Unrounds(Rounds(z, c1, c2), d1, d2) == z
  {
    var z1 := Round(z, 30, c1);
    RoundInverse(z, 30, c1, d1);
    var z2 := Round(z1, 27, c2);
    RoundInverse(z1, 27, c2, d2);
    XorShiftInverse(z2, 31);
  }

  lemma RoundsReached(w: nat, c1: nat, d1: nat, c2: nat, d2: nat)
    requires w < TWO_64 && Inverses(c1, d1) && Inverses(c2, d2)
    ensures Unrounds(w, d1, d2) < TWO_64 && Rounds(Unrounds(w, d1, d2), c1, c2) == w
  {
    var y := UnxorShift(w, 31);
    XorShiftInverse(w, 31);
    var y1 := Unround(y, 27, d2);
    RoundInverse(y, 27, c2, d2);
    RoundInverse(y1, 30, c1, d1);
  }

  lemma OffsetInverse(a: nat)
    requires a < TWO_64
    ensures ((a + GAMMA) % TWO_64 - GAMMA) % TWO_64 == a
    ensures ((a - GAMMA) % TWO_64 + GAMMA) % TWO_64 == a
  {
  }

  function Mix(seed: nat, c1: nat, c2: nat): nat {
    Rounds((seed + GAMMA) % TWO_64, c1, c2)
  }

  function Unmix(word: nat, d1: nat, d2: nat): nat {
    (Unrounds(word, d1, d2) - GAMMA) % TWO_64
  }

  lemma MixUndone(word: nat, c1: nat, d1: nat, c2: nat, d2: nat)
    requires word < TWO_64 && Inverses(c1, d1) && Inverses(c2, d2)
    ensures Mix(word, c1, c2) < TWO_64 && Unmix(Mix(word, c1, c2), d1, d2) == word
  {
    OffsetInverse(word);
    RoundsUndone((word + GAMMA) % TWO_64, c1, d1, c2, d2);
  }

  lemma MixReached(word: nat, c1: nat, d1: nat, c2: nat, d2: nat)
    requires word < TWO_64 && Inverses(c1, d1) && Inverses(c2, d2)
    ensures Unmix(word, d1, d2) < TWO_64 && Mix(Unmix(word, d1, d2), c1, c2) == word
  {
    RoundsReached(word, c1, d1, c2, d2);
    MixOffset(Unrounds(word, d1, d2), Unmix(word, d1, d2), c1, c2);
  }

  lemma MixOffset(z: nat, seed: int, c1: nat, c2: nat)
    requires z < TWO_64 && seed == (z - GAMMA) % TWO_64
    ensures 0 <= seed < TWO_64 && Mix(seed, c1, c2) == Rounds(z, c1, c2)
  {
    OffsetInverse(z);
  }

  /** The SplitMix64 finalizer on 64-bit words, and its inverse. */
  function SplitMix64(seed: nat): nat {
    Mix(seed, MUL1, MUL2)
  }

  function UnmixSplitMix64(word: nat): nat {
    Unmix(word, UNMUL1, UNMUL2)
  }

  lemma MultipliersInvertible()
    ensures Inverses(MUL1, UNMUL1) && Inverses(MUL2, UNMUL2)
  {
  }

  /** SplitMix64 is a bijection on 64-bit words. */
  lemma SplitMix64Bijective(word: nat)
    requires word < TWO_64
    ensures SplitMix64(word) < TWO_64 && UnmixSplitMix64(SplitMix64(word)) == word
    ensures UnmixSplitMix64(word) < TWO_64 && SplitMix64(UnmixSplitMix64(word)) == word
  {
    MultipliersInvertible();
    MixUndone(word, MUL1, UNMUL1, MUL2, UNMUL2);
    MixReached(word, MUL1, UNMUL1, MUL2, UNMUL2);
  }

  /** The word a job's jitter is drawn from: the halves of its id and the attempt, mixed. */
  function MixedWord(id: Ulid, attempt: nat): nat {
    SplitMix64(Xor(id / TWO_64, SplitMix64(Xor(id % TWO_64, attempt))))
  }

  lemma SplitMix64Injective(a: nat, b: nat)
    requires a < TWO_64 && b < TWO_64
    ensures SplitMix64(a) == SplitMix64(b) ==> a == b
  {
    SplitMix64Bijective(a);
    SplitMix64Bijective(b);
  }

  lemma XorCancels(k: nat, a: nat, b: nat)
    requires Xor(k, a) == Xor(k, b)
    ensures a == b
  {
    XorUndo(k, a);
    XorUndo(k, b);
  }

  /** Distinct attempts of one job draw their jitter from distinct words. */
  lemma DistinctAttemptsDistinctWords(id: Ulid, a: nat, b: nat)
    requires a <= U32_MAX && b <= U32_MAX && a != b
    ensures MixedWord(id, a) < TWO_64 && MixedWord(id, a) != MixedWord(id, b)
  {
    var hi, lo := id / TWO_64, id % TWO_64;
    XorWord(lo, a);
    XorWord(lo, b);
    SplitMix64Bijective(Xor(lo, a));
    SplitMix64Bijective(Xor(lo, b));
    XorWord(hi, SplitMix64(Xor(lo, a)));
    XorWord(hi, SplitMix64(Xor(lo, b)));
    SplitMix64Bijective(Xor(hi, SplitMix64(Xor(lo, a))));
    if MixedWord(id, a) == MixedWord(id, b) {
      SplitMix64Injective(Xor(hi, SplitMix64(Xor(lo, a))), Xor(hi, SplitMix64(Xor(lo, b))));
      XorCancels(hi, SplitMix64(Xor(lo, a)), SplitMix64(Xor(lo, b)));
      SplitMix64Injective(Xor(lo, a), Xor(lo, b));
      XorCancels(lo, a, b);
    }
  }

  /** Both halves of a job's identity matter: for one attempt, jobs that differ in just one half of
      their ids draw their jitter from distinct words. */
  lemma DistinctJobsDistinctWords(a: Ulid, b: Ulid, attempt: nat)
    requires attempt <= U32_MAX && a != b && (a / TWO_64 == b / TWO_64 || a % TWO_64 == b % TWO_64)
    ensures MixedWord(a, attempt) != MixedWord(b, attempt)
  {
    var x, y := SplitMix64(Xor(a % TWO_64, attempt)), SplitMix64(Xor(b % TWO_64, attempt));
    XorWord(a % TWO_64, attempt);
    XorWord(b % TWO_64, attempt);
    SplitMix64Bijective(Xor(a % TWO_64, attempt));
    SplitMix64Bijective(Xor(b % TWO_64, attempt));
    XorWord(a / TWO_64, x);
    XorWord(b / TWO_64, y);
    if MixedWord(a, attempt) == MixedWord(b, attempt) {
      SplitMix64Injective(Xor(a / TWO_64, x), Xor(b / TWO_64, y));
      if a / TWO_64 == b / TWO_64 {
        XorCancels(a / TWO_64, x, y);
        SplitMix64Injective(Xor(a % TWO_64, attempt), Xor(b % TWO_64, attempt));
        XorCommutes(a % TWO_64, attempt);
        XorCommutes(b % TWO_64, attempt);
        XorCancels(attempt, a % TWO_64, b % TWO_64);
      } else {
        XorCommutes(a / TWO_64, x);
        XorCommutes(b / TWO_64, y);
        XorCancels(x, a / TWO_64, b / TWO_64);
      }
    }
  }

  // ---------------------------------------------------------------- the jitter

  /** The top 53 bits of a word as a sample in [0, 1). */
  function UnitOf(word: nat): (u: real)
    requires word < TWO_64
    ensures 0.0 <= u < 1.0
  {
    (word / 2048) as real / 9007199254740992.0
  }

  function JitterUnit(id: Ulid, attempt: nat): (u: real)
    requires attempt <= U32_MAX
    ensures 0.0 <= u < 1.0
  {
    DistinctAttemptsDistinctWords(id, attempt, if attempt == 0 then 1 else 0);
    UnitOf(MixedWord(id, attempt))
  }

  /** A job's sample is made of the top 53 bits of its word, and nothing else. */
  lemma JitterIsTopBits(id: Ulid, attempt: nat)
    requires attempt <= U32_MAX
    ensures MixedWord(id, attempt) < TWO_64
    ensures JitterUnit(id, attempt) * 9007199254740992.0 == (MixedWord(id, attempt) / 2048) as real
  {
    DistinctAttemptsDistinctWords(id, attempt, if attempt == 0 then 1 else 0);
  }

  function Clamp01(f: real): real {
    if f < 0.0 then 0.0 else if f > 1.0 then 1.0 else f
  }

  /** The share of the delay that is kept: in [1 - f, 1], below 1 as soon as there is jitter. */
  function Factor(fraction: real, unit: real): (k: real)
    requires 0.0 <= unit < 1.0
    ensures 0.0 <= 1.0 - Clamp01(fraction) <= k <= 1.0
    ensures k == 1.0 <==> Clamp01(fraction) == 0.0
  {
    FactorBounds(Clamp01(fraction), 1.0 - unit);
    1.0 - Clamp01(fraction) * (1.0 - unit)
  }

  lemma FactorBounds(f: real, v: real)
    requires 0.0 <= f <= 1.0 && 0.0 < v <= 1.0
    ensures 0.0 <= f * v <= f
    ensures f * v == 0.0 <==> f == 0.0
  {
    if f > 0.0 {
      assert f * v > 0.0;
      assert f * (1.0 - v) >= 0.0;
    }
  }

  /** Spread `delay` by the jitter fraction, in real arithmetic. */
  function Jittered(delay: nat, fraction: real, unit: real): int
    requires 0.0 <= unit < 1.0
  {
    (delay as real * Factor(fraction, unit)).Floor
  }

  lemma FloorOfShare(d: nat, low: real, k: real)
    requires 0.0 <= low <= k <= 1.0
    ensures (d as real * low).Floor <= (d as real * k).Floor <= d
    ensures 0 <= (d as real * k).Floor
    ensures (d as real * k).Floor == d <==> d == 0 || k == 1.0
  {
    var x := d as real;
    assert x * (k - low) >= 0.0;
    assert x * (1.0 - k) >= 0.0;
    assert x * low >= 0.0;
    if d > 0 && k < 1.0 {
      assert x * (1.0 - k) > 0.0;
    }
  }

  /** The realized delay lies in [floor(delay * (1 - f)), delay], and is the full delay exactly where
      there is no jitter or no delay. */
  lemma JitterBounds(delay: nat, fraction: real, unit: real)
    requires 0.0 <= unit < 1.0
    ensures var f := Clamp01(fraction); var r := Jittered(delay, fraction, unit);
      && (delay as real * (1.0 - f)).Floor <= r <= delay
      && 0 <= r
      && (r == delay <==> delay == 0 || f == 0.0)
  {
    var low, k := 1.0 - Clamp01(fraction), Factor(fraction, unit);
    FloorOfShare(delay, low, k);
    assert Jittered(delay, fraction, unit) == (delay as real * k).Floor;
  }

  /** What a realized delay promises: within the jitter band of the ideal curve, the full delay only
      without jitter, never above the cap, and zero for the first two attempts. */
  ghost predicate WithinBand(c: Curve, fraction: real, attempt: nat, delay: int) {
    var ideal, f := IdealDelay(c, attempt), Clamp01(fraction);
    && (ideal as real * (1.0 - f)).Floor <= delay <= ideal
    && (delay == ideal <==> ideal == 0 || f == 0.0)
    && 0 <= delay <= c.cap
    && (attempt <= 2 ==> delay == 0)
  }

  /** The delay of this job's `attempt`-th failure, drawn by its id. */
  ghost function DrawnDelay(c: Curve, fraction: real, attempt: nat, id: Ulid): int
    requires c.Valid() && attempt <= U32_MAX
  {
    DelayMonotone(c, attempt, attempt);
    Jittered(IdealDelay(c, attempt), fraction, JitterUnit(id, attempt))
  }

  lemma JitteredInBand(c: Curve, fraction: real, attempt: nat, unit: real)
    requires c.Valid() && 0.0 <= unit < 1.0
    ensures IdealDelay(c, attempt) >= 0
    ensures WithinBand(c, fraction, attempt, Jittered(IdealDelay(c, attempt), fraction, unit))
  {
    DelayMonotone(c, attempt, attempt);
    var full: nat := IdealDelay(c, attempt);
    JitterBounds(full, fraction, unit);
    assert attempt <= 2 ==> full == 0;
  }

  lemma DrawnInBand(c: Curve, fraction: real, attempt: nat, id: Ulid)
    requires c.Valid() && attempt <= U32_MAX
    ensures WithinBand(c, fraction, attempt, DrawnDelay(c, fraction, attempt, id))
  {
    JitteredInBand(c, fraction, attempt, JitterUnit(id, attempt));
  }

  method SpreadDelay(c: Curve, fraction: real, attempt: nat, unit: real) returns (delay: int)
    requires c.Valid() && attempt <= U32_MAX && 0.0 <= unit < 1.0
    ensures WithinBand(c, fraction, attempt, delay)
    ensures IdealDelay(c, attempt) >= 0 && delay == Jittered(IdealDelay(c, attempt), fraction, unit)
  {
    var full := BaseDelay(c, attempt);
    DelayMonotone(c, attempt, attempt);
    JitterBounds(full, fraction, unit);
    if full == 0 {
      return 0;
    }
    delay := Jittered(full, fraction, unit);
  }

  /** The realized delay of a job's `attempt`-th failure. */
  method RetryDelay(c: Curve, fraction: real, attempt: nat, id: Ulid) returns (delay: int)
    requires c.Valid() && attempt <= U32_MAX
    ensures WithinBand(c, fraction, attempt, delay)
    ensures delay == DrawnDelay(c, fraction, attempt, id)
  {
    var unit := JitterUnit(id, attempt);
    delay := SpreadDelay(c, fraction, attempt, unit);
  }
}

/** The priority scheduler: the floor rotation, and how long lower tiers can be made to wait. */
module Scheduler {
  import opened Records
  import opened StoreSteps
  import opened Words

  const FLOOR_ALL: int := 0
  const FLOOR_NORMAL: int := 1
  const FLOOR_LOW: int := 2

  /** The priority floor of a claim, from the rotation counter and the configured ratio. */
  function FloorFor(counter: nat, ratio: Option<nat>): int {
    if ratio.Some? && ratio.value >= 2 then
      var r := ratio.value;
      if counter % (r * r) == 0 then FLOOR_LOW
      else if counter % r == 0 then FLOOR_NORMAL
      else FLOOR_ALL
    else FLOOR_ALL
  }

  /** The floors admit the tiers they are named after: all, all but High, and Low only. */
  lemma FloorsAdmitTiers(p: Priority)
    ensures Tier(p) >= FLOOR_ALL
    ensures Tier(p) >= FLOOR_NORMAL <==> !p.High?
    ensures Tier(p) >= FLOOR_LOW <==> p.Low?
  {
  }

  // ---------------------------------------------------------- counting the rotation

  /** How many of the `n` attempts after counter `c` have the given floor. */
  function FloorsIn(c: nat, n: nat, ratio: Option<nat>, floor: int): nat {
    if n == 0 then 0
    else FloorsIn(c, n - 1, ratio, floor) + (if FloorFor(c + n, ratio) == floor then 1 else 0)
  }

  /** How many multiples of `d` lie in (c, c + n]. */
  function MultiplesIn(c: nat, n: nat, d: nat): nat
    requires d >= 1
  {
    if n == 0 then 0
    else MultiplesIn(c, n - 1, d) + (if (c + n) % d == 0 then 1 else 0)
  }

  lemma ProductOrder(a: int, b: int, d: nat)
    ensures a <= b ==> a * d <= b * d
  {
  }

  lemma DivModUnique(x: nat, d: nat, q: nat, s: nat)
    requires d >= 1 && s < d && x == q * d + s
    ensures x / d == q && x % d == s
  {
    var p := x / d;
    assert p * d <= x < (p + 1) * d;
    ProductOrder(q + 1, p, d);
    ProductOrder(p + 1, q, d);
    assert (q + 1) * d == q * d + d;
  }

  lemma QuotientStep(m: nat, d: nat)
    requires d >= 1
    ensures (m + 1) / d == m / d + (if (m + 1) % d == 0 then 1 else 0)
  {
    var q, s := m / d, m % d;
    assert m == q * d + s;
    if s + 1 == d {
      assert m + 1 == (q + 1) * d;
      DivModUnique(m + 1, d, q + 1, 0);
    } else {
      DivModUnique(m + 1, d, q, s + 1);
    }
  }

  lemma {:induction false} MultiplesCounted(c: nat, n: nat, d: nat)
    requires d >= 1
    ensures MultiplesIn(c, n, d) == (c + n) / d - c / d
    decreases n
  {
    if n > 0 {
      MultiplesCounted(c, n - 1, d);
      QuotientStep(c + n - 1, d);
    }
  }

  lemma MultiplesInWindow(c: nat, k: nat, d: nat)
    requires d >= 1
    ensures MultiplesIn(c, k * d, d) == k
  {
    MultiplesCounted(c, k * d, d);
    var q, s := c / d, c % d;
    assert c + k * d == (q + k) * d + s;
    DivModUnique(c + k * d, d, q + k, s);
  }

  lemma SquareMultiple(m: nat, r: nat)
    requires r >= 1 && m % (r * r) == 0
    ensures m % r == 0
  {
    var q := m / (r * r);
    assert m == (q * r) * r;
    DivModUnique(m, r, q * r, 0);
  }

  lemma {:induction false} FloorsAsMultiples(c: nat, n: nat, r: nat)
    requires r >= 2
    ensures FloorsIn(c, n, Some(r), FLOOR_LOW) == MultiplesIn(c, n, r * r)
    ensures FloorsIn(c, n, Some(r), FLOOR_LOW) + FloorsIn(c, n, Some(r), FLOOR_NORMAL) == MultiplesIn(c, n, r)
    ensures FloorsIn(c, n, Some(r), FLOOR_LOW) + FloorsIn(c, n, Some(r), FLOOR_NORMAL)
          + FloorsIn(c, n, Some(r), FLOOR_ALL) == n
    decreases n
  {
    if n > 0 {
      FloorsAsMultiples(c, n - 1, r);
      if (c + n) % (r * r) == 0 {
        SquareMultiple(c + n, r);
      }
    }
  }

  /** Any r^2 consecutive attempts hold exactly one Low-only claim, r-1 claims that exclude High, and
      r^2-r unconstrained ones. */
  lemma RotationShares(c: nat, r: nat)
    requires r >= 2
    ensures FloorsIn(c, r * r, Some(r), FLOOR_LOW) == 1
    ensures FloorsIn(c, r * r, Some(r), FLOOR_NORMAL) == r - 1
    ensures FloorsIn(c, r * r, Some(r), FLOOR_ALL) == r * r - r
  {
    FloorsAsMultiples(c, r * r, r);
    MultiplesInWindow(c, 1, r * r);
    MultiplesInWindow(c, r, r);
  }

  lemma {:induction false} FloorOccurs(c: nat, n: nat, ratio: Option<nat>, floor: int) returns (i: nat)
    ensures FloorsIn(c, n, ratio, floor) > 0 ==> i < n && FloorFor(c + i + 1, ratio) == floor
    decreases n
  {
    if n == 0 {
      i := 0;
    } else if FloorFor(c + n, ratio) == floor {
      i := n - 1;
    } else {
      i := FloorOccurs(c, n - 1, ratio, floor);
    }
  }

  /** The rotation counter of the `t`-th attempt after counter `c`: a 64-bit wrapping increment. */
  function CounterAt(c: nat, t: nat): nat {
    (c + t + 1) % TWO_64
  }

  /** How many attempts the rotation may need before it reserves a claim for the tier. */
  function Window(r: nat, tier: int): nat {
    if tier == FLOOR_LOW then r * r else 3 * r
  }

  predicate LowerTier(tier: int) {
    tier == FLOOR_LOW || tier == FLOOR_NORMAL
  }

  predicate Ratio(r: nat) {
    2 <= r <= 0xFFFF_FFFF
  }

  lemma SquareFits(r: nat)
    requires Ratio(r)
    ensures 2 * r <= r * r < TWO_64 && 3 * r < TWO_64
  {
    ProductOrder(2, r, r);
    ProductOrder(r, 0xFFFF_FFFF, r);
    ProductOrder(r, 0xFFFF_FFFF, 0xFFFF_FFFF);
  }

  lemma AtMostOneSquare(c: nat, r: nat)
    requires Ratio(r)
    ensures (c + 2 * r) / (r * r) <= c / (r * r) + 1
  {
    SquareFits(r);
    var d := r * r;
    var q, s := c / d, c % d;
    assert c == q * d + s;
    if s + 2 * r < d {
      DivModUnique(c + 2 * r, d, q, s + 2 * r);
    } else {
      assert c + 2 * r == (q + 1) * d + (s + 2 * r - d);
      DivModUnique(c + 2 * r, d, q + 1, s + 2 * r - d);
    }
  }

  /** While the counter does not wrap, r^2 attempts reserve one claim for Low, and 2r one for Normal. */
  lemma ReservedWithoutWrap(c: nat, r: nat, tier: int) returns (i: nat)
    requires Ratio(r) && LowerTier(tier)
    ensures i < (if tier == FLOOR_LOW then r * r else 2 * r) && FloorFor(c + i + 1, Some(r)) == tier
  {
    if tier == FLOOR_LOW {
      RotationShares(c, r);
      i := FloorOccurs(c, r * r, Some(r), tier);
    } else {
      FloorsAsMultiples(c, 2 * r, r);
      MultiplesInWindow(c, 2, r);
      MultiplesCounted(c, 2 * r, r * r);
      AtMostOneSquare(c, r);
      i := FloorOccurs(c, 2 * r, Some(r), tier);
    }
  }

  lemma FloorsAfterWrap(r: nat)
    requires Ratio(r)
    ensures FloorFor(0, Some(r)) == FLOOR_LOW && FloorFor(r, Some(r)) == FLOOR_NORMAL
  {
    SquareFits(r);
    assert 0 % (r * r) == 0 by {
      DivModUnique(0, r * r, 0, 0);
    }
    assert r % (r * r) == r by {
      DivModUnique(r, r * r, 0, r);
    }
    assert r % r == 0 by {
      DivModUnique(r, r, 1, 0);
    }
  }

  /** Every window reserves a claim for the tier, even one in which the counter wraps: the wrapped
      counter starts a fresh rotation. */
  lemma ReservedClaimInWindow(c: nat, r: nat, tier: int) returns (i: nat)
    requires Ratio(r) && LowerTier(tier) && c < TWO_64
    ensures i < Window(r, tier) && FloorFor(CounterAt(c, i), Some(r)) == tier
  {
    SquareFits(r);
    i := ReservedWithoutWrap(c, r, tier);
    if c + i + 1 >= TWO_64 {
      FloorsAfterWrap(r);
      i := TWO_64 - c - 1 + (if tier == FLOOR_LOW then 0 else r);
      assert CounterAt(c, i) == (if tier == FLOOR_LOW then 0 else r);
    }
  }

  /** For Normal the wrap can stretch a gap beyond 2r: with r = 7 the last reserved counter before it is
      2^64 - 9 and the next is 7, with none in the fifteen attempts between them. */
  lemma WrapStretchesGap(i: nat)
    requires i < 15
    ensures FloorFor(TWO_64 - 9, Some(7)) == FloorFor(CounterAt(TWO_64 - 9, 15), Some(7)) == FLOOR_NORMAL
    ensures FloorFor(CounterAt(TWO_64 - 9, i), Some(7)) != FLOOR_NORMAL
  {
    assert CounterAt(TWO_64 - 9, i) == if i < 8 then TWO_64 - 8 + i else i - 8;
  }

  // ------------------------------------------------------------ one claim attempt

  /** What an attempt at a floor takes, when there is a row at the floor: one of those, first in claim
      order. */
  predicate FloorClaim(db: Db, now: Timestamp, kinds: seq<string>, floor: int, claimed: Option<Ulid>) {
    (exists id :: id in db.jobs && Eligible(db.jobs[id], now, kinds, floor)) ==>
      claimed.Some? && ClaimTarget(db, now, kinds, floor, claimed.value)
  }

  ghost predicate ValidTiers(db: Db) {
    forall id :: id in db.jobs ==> ValidPriority(db.jobs[id].priority)
  }

  // ------------------------------------------------------------- bounded waiting

  /** One attempt of a worker's loop: the table and clock its first call meets, the kinds it may claim,
      the row it took, the number of that first store call, and whether it went through. Between
      attempts, and before a fallback call, anything may happen to the table. */
  datatype Attempt = Attempt(
    db: Db, now: Timestamp, kinds: seq<string>, claimed: Option<Ulid>, call: nat, ok: bool)

  /** Rows of the target's tier and of the worker's own kinds that may be taken before it: due, and no
      younger than it. */
  function Ahead(a: Attempt, mine: seq<string>, target: Ulid, tier: int): set<Ulid>
    requires target in a.db.jobs
  {
    set id | id in a.db.jobs && id != target && a.db.jobs[id].status.Pending?
             && a.db.jobs[id].visibleAt <= a.now && a.db.jobs[id].priority == tier && a.db.jobs[id].kind in mine
             && a.db.jobs[id].createdAt <= a.db.jobs[target].createdAt
  }

  ghost predicate Waiting(a: Attempt, target: Ulid, tier: int) {
    && target in a.db.jobs
    && a.db.jobs[target].priority == tier
    && Eligible(a.db.jobs[target], a.now, a.kinds, tier)
  }

  /** No attempt before the `t`-th took the target. */
  ghost predicate NotYet(run: seq<Attempt>, target: Ulid, t: nat) {
    forall u :: 0 <= u < t && u < |run| ==> run[u].claimed != Some(target)
  }

  /** What is left of a line once an attempt has taken its row. */
  function LeftBy(a: Attempt, line: set<Ulid>): set<Ulid> {
    if a.claimed.Some? then line - {a.claimed.value} else line
  }

  /** Until it is claimed the target stays an eligible job of a claimable kind, and nothing enters the
      line ahead of it. High work and work of other workers' kinds may arrive without limit, and anyone
      may take rows between attempts. */
  ghost predicate KeepsLine(run: seq<Attempt>, mine: seq<string>, target: Ulid, tier: int, t: nat)
    requires t < |run|
  {
    NotYet(run, target, t) ==>
      && Waiting(run[t], target, tier)
      && (t > 0 && Waiting(run[t - 1], target, tier) ==>
            Ahead(run[t], mine, target, tier) <= LeftBy(run[t - 1], Ahead(run[t - 1], mine, target, tier)))
  }

  /** The job is pending and due at its tier, whether or not its kind is on offer. */
  predicate InLine(a: Attempt, target: Ulid, tier: int) {
    && target in a.db.jobs && a.db.jobs[target].status.Pending?
    && a.db.jobs[target].visibleAt <= a.now && a.db.jobs[target].priority == tier
  }

  /** The same of the job alone: until it is claimed it stays in line, and nothing enters ahead of it. */
  ghost predicate HoldsPlace(run: seq<Attempt>, mine: seq<string>, target: Ulid, tier: int, t: nat)
    requires t < |run|
  {
    NotYet(run, target, t) ==>
      && InLine(run[t], target, tier)
      && (t > 0 && InLine(run[t - 1], target, tier) ==>
            Ahead(run[t], mine, target, tier) <= LeftBy(run[t - 1], Ahead(run[t - 1], mine, target, tier)))
  }

  lemma OfferedPlaceIsKept(run: seq<Attempt>, mine: seq<string>, target: Ulid, tier: int, t: nat)
    requires t < |run| && HoldsPlace(run, mine, target, tier, t)
    requires target in run[t].db.jobs ==> run[t].db.jobs[target].kind in run[t].kinds
    ensures KeepsLine(run, mine, target, tier, t)
  {
  }

  /** The attempt follows the rotation, unless it failed, with kinds of the worker's own; and the line is
      kept. */
  ghost predicate FairAttempt(
    run: seq<Attempt>, c: nat, r: nat, mine: seq<string>, target: Ulid, tier: int, t: nat)
    requires t < |run|
  {
    var a := run[t];
    && (a.ok ==> FloorClaim(a.db, a.now, a.kinds, FloorFor(CounterAt(c, t), Some(r)), a.claimed))
    && (forall k :: k in a.kinds ==> k in mine)
    && KeepsLine(run, mine, target, tier, t)
  }

  ghost predicate FairLine(run: seq<Attempt>, c: nat, r: nat, mine: seq<string>, target: Ulid, tier: int) {
    forall t: nat :: t < |run| ==> FairAttempt(run, c, r, mine, target, tier, t)
  }

  /** How many attempts failed. */
  function Failures(run: seq<Attempt>): nat {
    if run == [] then 0 else (if run[0].ok then 0 else 1) + Failures(run[1..])
  }

  /** A suffix has no more failures, and fewer if one of those cut off had failed. */
  lemma {:induction false} FailuresSuffix(run: seq<Attempt>, m: nat)
    requires m <= |run|
    ensures Failures(run[m..]) <= Failures(run)
    ensures m > 0 && !run[m - 1].ok ==> Failures(run[m..]) < Failures(run)
    decreases m
  {
    if m > 0 {
      FailuresSuffix(run[1..], m - 1);
      assert run[1..][m - 1..] == run[m..];
    }
  }

  lemma {:induction false} LineShrinks(
    run: seq<Attempt>, c: nat, r: nat, mine: seq<string>, target: Ulid, tier: int, j: nat)
    requires FairLine(run, c, r, mine, target, tier) && j < |run| && NotYet(run, target, j)
    ensures Waiting(run[0], target, tier) && Waiting(run[j], target, tier)
    ensures Ahead(run[j], mine, target, tier) <= Ahead(run[0], mine, target, tier)
    decreases j
  {
    assert FairAttempt(run, c, r, mine, target, tier, j);
    if j > 0 {
      LineShrinks(run, c, r, mine, target, tier, j - 1);
    }
  }

  /** A claim reserved for the tier takes the target or someone ahead of it. */
  lemma ReservedClaimAdvances(a: Attempt, mine: seq<string>, target: Ulid, tier: int)
    requires Waiting(a, target, tier) && LowerTier(tier)
    requires FloorClaim(a.db, a.now, a.kinds, tier, a.claimed) && forall k :: k in a.kinds ==> k in mine
    ensures a.claimed.Some?
    ensures a.claimed.value == target || a.claimed.value in Ahead(a, mine, target, tier)
  {
    assert Eligible(a.db.jobs[target], a.now, a.kinds, tier);
    assert NoLater(a.db.jobs[a.claimed.value], a.db.jobs[target]);
  }

  /** From a later attempt on, the run is again a fair line. */
  lemma FairSuffix(run: seq<Attempt>, c: nat, r: nat, mine: seq<string>, target: Ulid, tier: int, m: nat)
    requires FairLine(run, c, r, mine, target, tier) && m <= |run| && NotYet(run, target, m)
    ensures FairLine(run[m..], (c + m) % TWO_64, r, mine, target, tier)
  {
    var rest, counter := run[m..], (c + m) % TWO_64;
    forall t: nat | t < |rest|
      ensures FairAttempt(rest, counter, r, mine, target, tier, t)
    {
      assert FairAttempt(run, c, r, mine, target, tier, m + t);
      NotYetSuffix(run, target, m, t);
      CounterSuffix(c, m, t);
    }
  }

  lemma CounterSuffix(c: nat, m: nat, t: nat)
    ensures CounterAt((c + m) % TWO_64, t) == CounterAt(c, m + t)
  {
  }

  lemma NotYetSuffix(run: seq<Attempt>, target: Ulid, m: nat, t: nat)
    requires m <= |run| && NotYet(run, target, m)
    ensures NotYet(run[m..], target, t) ==> NotYet(run, target, m + t)
  {
    if NotYet(run[m..], target, t) {
      forall u | m <= u < m + t && u < |run|
        ensures run[u].claimed != Some(target)
      {
        assert run[m..][u - m] == run[u];
      }
    }
  }

  lemma SmallerSet(small: set<Ulid>, large: set<Ulid>, x: Ulid)
    requires small <= large - {x} && x in large
    ensures |small| < |large|
  {
    SubsetSize(small, large - {x});
  }

  lemma SubsetSize(small: set<Ulid>, large: set<Ulid>)
    requires small <= large
    ensures |small| <= |large|
  {
    assert large == small + (large - small);
    assert |small + (large - small)| == |small| + |large - small|;
  }

  /** One window on: the target has been claimed, or the reserved attempt failed, or the line ahead of
      the target is shorter. */
  lemma OneWindow(run: seq<Attempt>, c: nat, r: nat, mine: seq<string>, target: Ulid, tier: int) returns (i: nat)
    requires Ratio(r) && LowerTier(tier) && c < TWO_64
    requires FairLine(run, c, r, mine, target, tier) && Window(r, tier) <= |run|
    ensures i < Window(r, tier)
    ensures run[i].claimed == Some(target)
      || (&& NotYet(run, target, i + 1)
          && Waiting(run[0], target, tier)
          && (run[i].ok ==> Ahead(run[0], mine, target, tier) != {})
          && (i + 1 < |run| ==>
                && Waiting(run[i + 1], target, tier)
                && |Ahead(run[i + 1], mine, target, tier)|
                   <= |Ahead(run[0], mine, target, tier)| - (if run[i].ok then 1 else 0)))
  {
    i := ReservedClaimInWindow(c, r, tier);
    if u :| 0 <= u <= i && run[u].claimed == Some(target) {
      i := u;
    } else {
      LineShrinks(run, c, r, mine, target, tier, i);
      assert FairAttempt(run, c, r, mine, target, tier, i);
      if run[i].ok {
        ReservedClaimAdvances(run[i], mine, target, tier);
      }
      if i + 1 < |run| {
        AfterReserved(run, c, r, mine, target, tier, i);
      }
    }
  }

  /** Behind an attempt that left the target waiting, the line is no longer, and shorter if it took one
      of the line. */
  lemma AfterReserved(
    run: seq<Attempt>, c: nat, r: nat, mine: seq<string>, target: Ulid, tier: int, i: nat)
    requires FairLine(run, c, r, mine, target, tier) && i + 1 < |run| && NotYet(run, target, i + 1)
    requires Waiting(run[0], target, tier) && Waiting(run[i], target, tier)
    requires Ahead(run[i], mine, target, tier) <= Ahead(run[0], mine, target, tier)
    requires run[i].ok ==>
      run[i].claimed.Some? && run[i].claimed.value in Ahead(run[i], mine, target, tier)
    ensures Waiting(run[i + 1], target, tier)
    ensures |Ahead(run[i + 1], mine, target, tier)|
         <= |Ahead(run[0], mine, target, tier)| - (if run[i].ok then 1 else 0)
  {
    assert FairAttempt(run, c, r, mine, target, tier, i + 1);
    if run[i].ok {
      SmallerSet(Ahead(run[i + 1], mine, target, tier), Ahead(run[0], mine, target, tier), run[i].claimed.value);
    } else {
      SubsetSize(Ahead(run[i + 1], mine, target, tier), Ahead(run[0], mine, target, tier));
    }
  }

  /** Bounded waiting: an eligible job of tier Low (Normal) with k due jobs of its tier and of the
      worker's kinds ahead of it, and nobody entering ahead, is claimed within (k+f+1) windows of r^2
      (3r) attempts, if f of the attempts fail; whatever High or foreign work arrives, and wherever
      the counter stands. */
  lemma {:induction false} BoundedWaiting(
    run: seq<Attempt>, c: nat, r: nat, mine: seq<string>, target: Ulid, tier: int, k: nat, f: nat)
    returns (t: nat)
    requires Ratio(r) && LowerTier(tier) && c < TWO_64
    requires FairLine(run, c, r, mine, target, tier) && Failures(run) <= f
    requires |run| >= (k + f + 1) * Window(r, tier)
    requires run != [] ==> Waiting(run[0], target, tier) && |Ahead(run[0], mine, target, tier)| <= k
    ensures t < (k + f + 1) * Window(r, tier) && t < |run| && run[t].claimed == Some(target)
    decreases k + f
  {
    var w := Window(r, tier);
    WindowsSplit(k + f, w);
    t := OneWindow(run, c, r, mine, target, tier);
    if run[t].claimed != Some(target) {
      var rest := run[t + 1..];
      FailuresSuffix(run, t + 1);
      FairSuffix(run, c, r, mine, target, tier, t + 1);
      assert k + f >= 1 && |rest| >= (k + f) * w && rest != [] && rest[0] == run[t + 1];
      var k', f' := if run[t].ok then k - 1 else k, if run[t].ok then f else f - 1;
      var later := BoundedWaiting(rest, (c + t + 1) % TWO_64, r, mine, target, tier, k', f');
      t := t + 1 + later;
    }
  }

  lemma WindowsSplit(k: nat, w: nat)
    ensures w <= (k + 1) * w == k * w + w
    ensures k >= 1 ==> k * w >= w
  {
    ProductOrder(0, k, w);
    ProductOrder(1, k, w);
  }

  /** Without a ratio of at least 2 there is no such bound: as long as High work keeps arriving, a
      lower tier is never served. */
  lemma StrictPriorityStarves(a: Attempt, counter: nat, ratio: Option<nat>, target: Ulid, high: Ulid)
    requires ratio.None? || ratio.value < 2
    requires target in a.db.jobs && a.db.jobs[target].priority > 0
    requires high in a.db.jobs && a.db.jobs[high].priority == 0 && Eligible(a.db.jobs[high], a.now, a.kinds, FLOOR_ALL)
    requires FloorClaim(a.db, a.now, a.kinds, FloorFor(counter, ratio), a.claimed)
    ensures a.claimed.Some? && a.claimed != Some(target)
  {
    assert NoLater(a.db.jobs[a.claimed.value], a.db.jobs[high]);
  }
}

/** How the weighted pool scheduler of main/stratum_minimal.c divides a frame of 80 jobs among
    three pools: rounded-down shares, one job for each weighted pool that got none, and the
    rest by largest remainder. */
module FrameQuotas {

  const POOLS: nat := 3
  const FRAME_JOBS: nat := 80
  const SLICE_MAX_JOBS: nat := 12
  const WEIGHT_MAX: nat := 99

  function Sum(s: seq<int>): int
    requires |s| == POOLS
  {
    s[0] + s[1] + s[2]
  }

  // ----- dividing a frame

  function Floors(w: seq<nat>, total: nat): (r: seq<nat>)
    requires |w| == POOLS && total > 0
    ensures |r| == POOLS
  {
    seq(POOLS, i requires 0 <= i < POOLS => w[i] * FRAME_JOBS / total)
  }

  function Remainders(w: seq<nat>, total: nat): (r: seq<nat>)
    requires |w| == POOLS && total > 0
    ensures |r| == POOLS
  {
    seq(POOLS, i requires 0 <= i < POOLS => w[i] * FRAME_JOBS % total)
  }

  /** One job for each weighted pool from `i` on that has none, while jobs are left. */
  function MinOne(w: seq<nat>, jobs: seq<nat>, i: nat): (r: seq<nat>)
    requires |w| == |jobs| == POOLS && i <= POOLS
    ensures |r| == POOLS
    decreases POOLS - i
  {
    if i == POOLS then jobs
    else if Sum(jobs) < FRAME_JOBS && w[i] != 0 && jobs[i] == 0 then MinOne(w, jobs[i := 1], i + 1)
    else MinOne(w, jobs, i + 1)
  }

  /** The first weighted pool among the first `n` with the largest remainder, or `n`. */
  function Largest(w: seq<nat>, rem: seq<nat>, n: nat): (best: nat)
    requires |w| == |rem| == POOLS && n <= POOLS
    ensures best <= n
    ensures best < n ==> w[best] != 0
    ensures best == n ==> forall i | 0 <= i < n :: w[i] == 0
    ensures best < n ==> forall i | 0 <= i < n && w[i] != 0 ::
              rem[i] <= rem[best] && (i < best ==> rem[i] < rem[best])
  {
    if n == 0 then 0
    else
      var b := Largest(w, rem, n - 1);
      if w[n - 1] == 0 then (if b == n - 1 then n else b)
      else if b == n - 1 || rem[n - 1] > rem[b] then n - 1
      else b
  }

  /** The jobs still unassigned go out one by one to the largest remainder. */
  function FillUp(w: seq<nat>, jobs: seq<nat>, rem: seq<nat>): (r: seq<nat>)
    requires |w| == |jobs| == |rem| == POOLS
    ensures |r| == POOLS
    decreases FRAME_JOBS - Sum(jobs)
  {
    var best := Largest(w, rem, POOLS);
    if Sum(jobs) >= FRAME_JOBS || best == POOLS then jobs
    else FillUp(w, jobs[best := jobs[best] + 1], rem[best := 0])
  }

  function Quotas(w: seq<nat>, total: nat): (r: seq<nat>)
    requires |w| == POOLS && total > 0
    ensures |r| == POOLS
  {
    FillUp(w, MinOne(w, Floors(w, total), 0), Remainders(w, total))
  }

  // ----- what the quotas add up to

  lemma FloorTimes(x: nat, total: nat)
    requires total > 0
    ensures Times(total, x / total) + x % total == x && x % total < total
  {
  }

  function Times(a: int, b: int): int {
    a * b
  }

  lemma TimesMonotone(t: nat, a: int, b: int)
    ensures a <= b ==> Times(t, a) <= Times(t, b)
  {
  }

  /** The three ways a product changes with its factors. */
  lemma TimesOnce(t: int, a: int)
    ensures Times(t, 0) == 0 && Times(t, 1) == t
    ensures Times(t, a + 1) == Times(t, a) + t && Times(t - 1, a) == Times(t, a) - a
    ensures Times(t, a) == Times(a, t)
  {
  }

  lemma SmallMultiple(t: nat, d: int)
    requires t > 0 && 0 <= Times(t, d) < Times(t, POOLS)
    ensures 0 <= d < POOLS
  {
    TimesOnce(t, -1);
    TimesMonotone(t, d, -1);
    TimesMonotone(t, POOLS, d);
  }

  lemma LeftOver(t: nat, q: seq<nat>, r: seq<nat>)
    requires t > 0 && |q| == |r| == POOLS
    requires Times(t, q[0]) + r[0] + Times(t, q[1]) + r[1] + Times(t, q[2]) + r[2] == Times(t, FRAME_JOBS)
    requires r[0] < t && r[1] < t && r[2] < t
    ensures 0 <= FRAME_JOBS - Sum(q) < POOLS && Times(t, FRAME_JOBS - Sum(q)) == Sum(r)
  {
    TimesSum(t, q[0], q[1], q[2], FRAME_JOBS);
    assert Times(t, POOLS) == t + t + t;
    SmallMultiple(t, FRAME_JOBS - Sum(q));
  }

  lemma TimesSum(t: int, a: int, b: int, c: int, n: int)
    ensures Times(t, n - (a + b + c)) == Times(t, n) - Times(t, a) - Times(t, b) - Times(t, c)
  {
  }

  /** One pool's share, rounded down, and what that lost. */
  lemma FloorOf(w: seq<nat>, total: nat, i: nat)
    requires |w| == POOLS && total > 0 && i < POOLS
    ensures Times(total, Floors(w, total)[i]) + Remainders(w, total)[i] == w[i] * FRAME_JOBS
    ensures Remainders(w, total)[i] < total
    ensures Floors(w, total)[i] == 0 ==> Remainders(w, total)[i] == w[i] * FRAME_JOBS
    ensures w[i] == 0 ==> Floors(w, total)[i] == 0 && Remainders(w, total)[i] == 0
  {
    FloorTimes(w[i] * FRAME_JOBS, total);
    TimesOnce(total, 0);
  }

  /** The floors leave at most two jobs to assign, and the remainders are what they lost. */
  lemma FloorsSum(w: seq<nat>, total: nat)
    requires |w| == POOLS && total == Sum(w) && total > 0
    ensures FRAME_JOBS - POOLS < Sum(Floors(w, total)) <= FRAME_JOBS
    ensures Sum(Remainders(w, total)) == Times(total, FRAME_JOBS - Sum(Floors(w, total)))
    ensures forall i | 0 <= i < POOLS :: Remainders(w, total)[i] < total
    ensures forall i | 0 <= i < POOLS ::
              && (w[i] == 0 ==> Floors(w, total)[i] == 0 && Remainders(w, total)[i] == 0)
              && (w[i] != 0 && Floors(w, total)[i] == 0 ==> Remainders(w, total)[i] != 0)
  {
    FloorOf(w, total, 0);
    FloorOf(w, total, 1);
    FloorOf(w, total, 2);
    hide Floors, Remainders;
    assert Times(total, FRAME_JOBS) == (w[0] + w[1] + w[2]) * FRAME_JOBS;
    LeftOver(total, Floors(w, total), Remainders(w, total));
  }

  lemma {:induction false} MinOneBounds(w: seq<nat>, jobs: seq<nat>, i: nat)
    requires |w| == |jobs| == POOLS && i <= POOLS && Sum(jobs) <= FRAME_JOBS
    requires forall k | 0 <= k < POOLS && w[k] == 0 :: jobs[k] == 0
    ensures var r := MinOne(w, jobs, i);
            && Sum(jobs) <= Sum(r) <= FRAME_JOBS
            && (forall k | 0 <= k < POOLS :: r[k] == jobs[k] || (r[k] == 1 && jobs[k] == 0 && w[k] != 0 && i <= k))
            && (forall k | i <= k < POOLS && w[k] != 0 && r[k] == 0 :: Sum(r) == FRAME_JOBS)
    decreases POOLS - i
  {
    if i == POOLS {
    } else if Sum(jobs) < FRAME_JOBS && w[i] != 0 && jobs[i] == 0 {
      MinOneBounds(w, jobs[i := 1], i + 1);
    } else {
      MinOneBounds(w, jobs, i + 1);
    }
  }

  lemma {:induction false} FillUpBounds(w: seq<nat>, jobs: seq<nat>, rem: seq<nat>)
    requires |w| == |jobs| == |rem| == POOLS && Sum(jobs) <= FRAME_JOBS && Sum(w) > 0
    ensures var r := FillUp(w, jobs, rem);
            && Sum(r) == FRAME_JOBS
            && forall k | 0 <= k < POOLS :: jobs[k] <= r[k] && (w[k] == 0 ==> r[k] == jobs[k])
    decreases FRAME_JOBS - Sum(jobs)
  {
    var best := Largest(w, rem, POOLS);
    if Sum(jobs) < FRAME_JOBS {
      FillUpBounds(w, jobs[best := jobs[best] + 1], rem[best := 0]);
    }
  }

  /** A frame is always exactly 80 jobs, none of them for a pool without weight; the loop
      that would take jobs back has nothing to do. */
  lemma QuotasFillTheFrame(w: seq<nat>, total: nat)
    requires |w| == POOLS && total == Sum(w) && total > 0
    ensures Sum(Quotas(w, total)) == FRAME_JOBS
    ensures Sum(MinOne(w, Floors(w, total), 0)) <= FRAME_JOBS
    ensures forall k | 0 <= k < POOLS :: Quotas(w, total)[k] >= Floors(w, total)[k]
    ensures forall k | 0 <= k < POOLS && w[k] == 0 :: Quotas(w, total)[k] == 0
  {
    FloorsSum(w, total);
    var q := Floors(w, total);
    MinOneBounds(w, q, 0);
    FillUpBounds(w, MinOne(w, q, 0), Remainders(w, total));
  }

  /** Weighted pools whose share rounds down to nothing. */
  function Empties(w: seq<nat>, total: nat): nat
    requires |w| == POOLS && total > 0
  {
    var q := Floors(w, total);
    (if w[0] != 0 && q[0] == 0 then 1 else 0) +
    (if w[1] != 0 && q[1] == 0 then 1 else 0) +
    (if w[2] != 0 && q[2] == 0 then 1 else 0)
  }

  lemma MinOneServes(w: seq<nat>, jobs: seq<nat>)
    requires |w| == |jobs| == POOLS && Sum(jobs) <= FRAME_JOBS
    ensures var r := MinOne(w, jobs, 0);
            var empties := (if w[0] != 0 && jobs[0] == 0 then 1 else 0) +
                           (if w[1] != 0 && jobs[1] == 0 then 1 else 0) +
                           (if w[2] != 0 && jobs[2] == 0 then 1 else 0);
            (forall k | 0 <= k < POOLS && w[k] != 0 :: r[k] != 0) <==> Sum(jobs) + empties <= FRAME_JOBS
  {
    var a := MinOne(w, jobs, 0);
    assert MinOne(w, a, 3) == a;
  }

  /** Every weighted pool gets a job exactly when the jobs left by rounding down are enough
      for the pools that rounded to nothing. */
  lemma EveryPoolServedIff(w: seq<nat>, total: nat)
    requires |w| == POOLS && total == Sum(w) && total > 0
    ensures (forall k | 0 <= k < POOLS && w[k] != 0 :: Quotas(w, total)[k] != 0)
            <==> Sum(Floors(w, total)) + Empties(w, total) <= FRAME_JOBS
  {
    FloorsSum(w, total);
    var q := Floors(w, total);
    var m := MinOne(w, q, 0);
    MinOneServes(w, q);
    MinOneBounds(w, q, 0);
    FillUpBounds(w, m, Remainders(w, total));
    if Sum(m) == FRAME_JOBS {
      assert Quotas(w, total) == m;
    }
  }

  /** Two pools cannot both round to nothing and lose less than two jobs between them. */
  lemma TwoEmpties(a: nat, b: nat, c: nat, left: int)
    requires 0 < a && 0 < b && c <= WEIGHT_MAX
    requires (a + b) * FRAME_JOBS <= Times(a + b + c, left)
    ensures left >= 2
  {
    TimesOnce(a + b + c, 0);
    TimesMonotone(a + b + c, left, 1);
  }

  /** With the configured limit of 99 per weight nobody is starved. */
  lemma EveryPoolServed(w: seq<nat>, total: nat, k: nat)
    requires |w| == POOLS && total == Sum(w) && k < POOLS && w[k] != 0
    requires forall i | 0 <= i < POOLS :: w[i] <= WEIGHT_MAX
    ensures Quotas(w, total)[k] != 0
  {
    EnoughLeft(w, total);
    EveryPoolServedIff(w, total);
  }

  lemma EnoughLeft(w: seq<nat>, total: nat)
    requires |w| == POOLS && total == Sum(w) && total > 0
    requires forall i | 0 <= i < POOLS :: w[i] <= WEIGHT_MAX
    ensures Sum(Floors(w, total)) + Empties(w, total) <= FRAME_JOBS
  {
    hide Floors, Remainders, Times;
    FloorsSum(w, total);
    var q, r := Floors(w, total), Remainders(w, total);
    FloorOf(w, total, 0);
    FloorOf(w, total, 1);
    FloorOf(w, total, 2);
    EnoughLeftFor(w, q, r, total, FRAME_JOBS - Sum(q));
  }

  lemma EnoughLeftFor(w: seq<nat>, q: seq<nat>, r: seq<nat>, total: nat, left: int)
    requires |w| == |q| == |r| == POOLS && total == Sum(w) && total > 0
    requires forall i | 0 <= i < POOLS :: w[i] <= WEIGHT_MAX
    requires left == FRAME_JOBS - Sum(q) && Sum(r) == Times(total, left) && left < POOLS
    requires forall i | 0 <= i < POOLS && q[i] == 0 :: r[i] == w[i] * FRAME_JOBS
    ensures (if w[0] != 0 && q[0] == 0 then 1 else 0) + (if w[1] != 0 && q[1] == 0 then 1 else 0) +
            (if w[2] != 0 && q[2] == 0 then 1 else 0) <= left
  {
    hide Times;
    var e0, e1, e2 := w[0] != 0 && q[0] == 0, w[1] != 0 && q[1] == 0, w[2] != 0 && q[2] == 0;
    TimesMonotone(total, left, 0);
    TimesOnce(total, 0);
    if e0 || e1 || e2 {
      assert Sum(r) > 0;
      assert left >= 1;
    } else {
      assert left >= 0 by { TimesMonotone(total, left, -1); TimesOnce(total, -1); }
    }
    assert w[0] + w[2] + w[1] == w[1] + w[2] + w[0] == total;
    if e0 && e1 { TwoEmpties(w[0], w[1], w[2], left); }
    if e0 && e2 { TwoEmpties(w[0], w[2], w[1], left); }
    if e1 && e2 { TwoEmpties(w[1], w[2], w[0], left); }
  }

  /** A heaviest pool never rounds to nothing. */
  lemma HeaviestHasFloor(w: seq<nat>, total: nat, h: nat)
    requires |w| == POOLS && total == Sum(w) && total > 0 && h < POOLS
    requires forall i | 0 <= i < POOLS :: w[i] <= w[h]
    ensures Floors(w, total)[h] != 0
  {
    FloorOf(w, total, h);
  }

  /** The floor of the heaviest pool when the others weigh almost nothing. */
  lemma FloorAlmostAll(w: seq<nat>, total: nat, h: nat)
    requires |w| == POOLS && total == Sum(w) && total > 0 && h < POOLS && w[h] < total
    requires FRAME_JOBS * (total - w[h]) <= total
    ensures Floors(w, total)[h] == FRAME_JOBS - 1
  {
    FloorOf(w, total, h);
    var q := Floors(w, total)[h];
    assert Times(total, FRAME_JOBS) == total * FRAME_JOBS && Times(total, FRAME_JOBS - 1) == total * (FRAME_JOBS - 1);
    TimesOnce(total, q);
    TimesMonotone(total, q + 1, FRAME_JOBS - 1);
    TimesMonotone(total, FRAME_JOBS, q);
  }

  /** WHO IS STARVED: with three weighted pools somebody gets no job exactly when the heaviest
      weighs at least 79 times as much as the others together. */
  lemma StarvedIff(w: seq<nat>, total: nat, h: nat)
    requires |w| == POOLS && total == Sum(w) && h < POOLS
    requires forall i | 0 <= i < POOLS :: 0 < w[i] <= w[h]
    ensures (exists k :: 0 <= k < POOLS && Quotas(w, total)[k] == 0) <==> (FRAME_JOBS - 1) * (total - w[h]) <= w[h]
  {
    hide Floors, Remainders, Times, Quotas;
    EveryPoolServedIff(w, total);
    FloorsSum(w, total);
    HeaviestHasFloor(w, total, h);
    var q, r := Floors(w, total), Remainders(w, total);
    FloorOf(w, total, 0);
    FloorOf(w, total, 1);
    FloorOf(w, total, 2);
    if FRAME_JOBS * (total - w[h]) <= total {
      FloorAlmostAll(w, total, h);
      LightFloors(w, q, r, total, h);
    } else {
      HeavyEnough(w, q, r, total, h);
    }
  }

  /** Two pools that together weigh at most an 80th both round to nothing. */
  lemma LightFloors(w: seq<nat>, q: seq<nat>, r: seq<nat>, total: nat, h: nat)
    requires |w| == |q| == |r| == POOLS && total == Sum(w) && h < POOLS
    requires forall i | 0 <= i < POOLS :: 0 < w[i] && Times(total, q[i]) + r[i] == w[i] * FRAME_JOBS
    requires FRAME_JOBS * (total - w[h]) <= total
    ensures forall i | 0 <= i < POOLS && i != h :: q[i] == 0
  {
    forall i | 0 <= i < POOLS && i != h ensures q[i] == 0 {
      assert w[i] < total - w[h];
      TimesMonotone(total, 1, q[i]);
      TimesOnce(total, 1);
    }
  }

  /** If somebody rounds to nothing without a job left for them, they are two, and light. */
  lemma HeavyEnough(w: seq<nat>, q: seq<nat>, r: seq<nat>, total: nat, h: nat)
    requires |w| == |q| == |r| == POOLS && total == Sum(w) && total > 0 && h < POOLS && q[h] != 0
    requires forall i | 0 <= i < POOLS :: 0 < w[i] && (q[i] == 0 ==> r[i] == w[i] * FRAME_JOBS)
    requires Sum(q) <= FRAME_JOBS && Sum(r) == Times(total, FRAME_JOBS - Sum(q))
    requires FRAME_JOBS * (total - w[h]) > total
    ensures Sum(q) + (if q[0] == 0 then 1 else 0) + (if q[1] == 0 then 1 else 0) + 
            (if q[2] == 0 then 1 else 0) <= FRAME_JOBS
  {
    TimesOnce(total, 0);
    TimesMonotone(total, FRAME_JOBS - Sum(q), 1);
  }

  /** Weights 200, 1 and 1, beyond the configured limit, starve the last pool. */
  lemma HeavyWeightStarves()
    ensures Quotas([200, 1, 1], 202)[2] == 0
  {
    var w := [200, 1, 1];
    assert Floors(w, 202) == [79, 0, 0];
    assert MinOne(w, [79, 0, 0], 0) == [79, 1, 0] by {
      assert MinOne(w, [79, 1, 0], 2) == MinOne(w, [79, 1, 0], 3) == [79, 1, 0];
      assert [79, 0, 0][1 := 1] == [79, 1, 0];
    }
  }

  // ----- two active pools

  /** With at most two weighted pools, which is all the configuration allows, every quota is
      its exact share rounded down or up. */
  lemma TwoPoolsRound(w: seq<nat>, total: nat, k: nat)
    requires |w| == POOLS && total == Sum(w) && total > 0 && k < POOLS
    requires w[0] == 0 || w[1] == 0 || w[2] == 0
    ensures var q := Floors(w, total)[k];
            var quota := Quotas(w, total)[k];
            quota == q || (quota == q + 1 && Remainders(w, total)[k] != 0)
  {
    FloorsSum(w, total);
    var q, r := Floors(w, total), Remainders(w, total);
    var left := FRAME_JOBS - Sum(q);
    TwoRemainders(w, r, total, left);
    var m := MinOne(w, q, 0);
    MinOneBounds(w, q, 0);
    var best := Largest(w, r, POOLS);
    if Sum(m) < FRAME_JOBS {
      assert m == q;
      assert FillUp(w, m, r) == m[best := m[best] + 1];
    }
  }

  lemma TwoRemainders(w: seq<nat>, r: seq<nat>, total: nat, left: int)
    requires |w| == |r| == POOLS && total > 0 && Sum(r) == Times(total, left) && left < POOLS
    requires w[0] == 0 || w[1] == 0 || w[2] == 0
    requires forall i | 0 <= i < POOLS :: r[i] < total && (w[i] == 0 ==> r[i] == 0)
    ensures left <= 1
    ensures left == 1 ==> exists i :: 0 <= i < POOLS && r[i] != 0
  {
    TimesMonotone(total, 2, left);
    TimesOnce(total, 0);
    TimesOnce(total, 1);
    assert Times(total, 2) == total + total;
    if forall i | 0 <= i < POOLS :: r[i] == 0 {
      assert Sum(r) == 0;
    }
  }

  // ----- three weighted pools

  lemma MinOneSum(w: seq<nat>, jobs: seq<nat>)
    requires |w| == |jobs| == POOLS && Sum(jobs) <= FRAME_JOBS
    ensures var empties := (if w[0] != 0 && jobs[0] == 0 then 1 else 0) +
                           (if w[1] != 0 && jobs[1] == 0 then 1 else 0) +
                           (if w[2] != 0 && jobs[2] == 0 then 1 else 0);
            Sum(MinOne(w, jobs, 0)) == if Sum(jobs) + empties <= FRAME_JOBS then Sum(jobs) + empties else FRAME_JOBS
  {
    var a := if Sum(jobs) < FRAME_JOBS && w[0] != 0 && jobs[0] == 0 then jobs[0 := 1] else jobs;
    var b := if Sum(a) < FRAME_JOBS && w[1] != 0 && a[1] == 0 then a[1 := 1] else a;
    var c := if Sum(b) < FRAME_JOBS && w[2] != 0 && b[2] == 0 then b[2 := 1] else b;
    assert MinOne(w, jobs, 0) == MinOne(w, a, 1) == MinOne(w, b, 2) == MinOne(w, c, 3) == c;
  }

  lemma NobodyEmpty(w: seq<nat>, jobs: seq<nat>, i: nat)
    requires |w| == |jobs| == POOLS && i <= POOLS
    requires forall k | 0 <= k < POOLS && w[k] != 0 :: jobs[k] != 0
    ensures MinOne(w, jobs, i) == jobs
    decreases POOLS - i
  {
    if i < POOLS {
      NobodyEmpty(w, jobs, i + 1);
    }
  }

  /** THE LARGEST REMAINDERS WIN: when no weighted pool rounds to nothing, a pool gets at most one job
      above its floor, and of two pools the one whose share lost more gets it first, the earlier one
      when both lost the same. */
  lemma LargestRemaindersWin(w: seq<nat>, total: nat, i: nat, j: nat)
    requires |w| == POOLS && total == Sum(w) && total > 0 && i < POOLS && j < POOLS && w[i] != 0 && w[j] != 0
    requires forall k | 0 <= k < POOLS && w[k] != 0 :: w[k] * FRAME_JOBS >= total
    ensures var quota, floor := Quotas(w, total), Floors(w, total);
            var lost_i := w[i] * FRAME_JOBS - Times(total, floor[i]);
            var lost_j := w[j] * FRAME_JOBS - Times(total, floor[j]);
            && floor[i] <= quota[i] <= floor[i] + 1
            && (quota[i] > floor[i] && quota[j] == floor[j] ==> lost_i > lost_j || (lost_i == lost_j && i < j))
  {
    FloorsSum(w, total);
    var q, r := Floors(w, total), Remainders(w, total);
    forall k | 0 <= k < POOLS && w[k] != 0 ensures q[k] != 0 {
      FloorOf(w, total, k);
    }
    FloorOf(w, total, i);
    FloorOf(w, total, j);
    NobodyEmpty(w, q, 0);
    var left := FRAME_JOBS - Sum(q);
    FillsLargest(w, total, q, r, left, i, j);
  }

  lemma FillsLargest(w: seq<nat>, total: nat, q: seq<nat>, r: seq<nat>, left: int, i: nat, j: nat)
    requires |w| == |q| == |r| == POOLS && i < POOLS && j < POOLS && w[i] != 0 && w[j] != 0 && total > 0
    requires left == FRAME_JOBS - Sum(q) && 0 <= left < POOLS && Sum(r) == Times(total, left)
    requires forall k | 0 <= k < POOLS :: r[k] < total && (w[k] == 0 ==> r[k] == 0)
    ensures var f := FillUp(w, q, r);
            && q[i] <= f[i] <= q[i] + 1
            && (f[i] > q[i] && f[j] == q[j] ==> r[i] > r[j] || (r[i] == r[j] && i < j))
  {
    FillStep(w, q, r);
    var b := Largest(w, r, POOLS);
    hide FillUp, Largest, Times;
    if left == 1 {
      FillOnce(w, q, r);
      OneUpdate(q, r, b, i, j);
    } else if left == 2 {
      TwiceIs(total);
      var c := Largest(w, r[b := 0], POOLS);
      FillTwoSteps(w, q, r, b, c);
      SecondLargest(w, r, total, b, c);
      TwoUpdatesOrder(q, r, b, c, i, j);
    }
  }

  lemma TwiceIs(total: nat)
    ensures Times(total, 2) == total + total
  {
  }

  lemma OneUpdate(q: seq<nat>, r: seq<nat>, b: nat, i: nat, j: nat)
    requires |q| == |r| == POOLS && b < POOLS && i < POOLS && j < POOLS
    requires forall k | k == i || k == j :: r[k] <= r[b] && (k < b ==> r[k] < r[b])
    ensures var f := q[b := q[b] + 1];
            && q[i] <= f[i] <= q[i] + 1
            && (f[i] > q[i] && f[j] == q[j] ==> r[i] > r[j] || (r[i] == r[j] && i < j))
  {
  }

  lemma TwoUpdatesOrder(q: seq<nat>, r: seq<nat>, b: nat, c: nat, i: nat, j: nat)
    requires |q| == |r| == POOLS && b < POOLS && c < POOLS && b != c && i < POOLS && j < POOLS
    requires forall k | k == i || k == j :: r[k] <= r[b] && (k < b ==> r[k] < r[b])
    requires forall k | (k == i || k == j) && k != b :: r[k] <= r[c] && (k < c ==> r[k] < r[c])
    ensures var once := q[b := q[b] + 1];
            var f := once[c := once[c] + 1];
            && q[i] <= f[i] <= q[i] + 1
            && (f[i] > q[i] && f[j] == q[j] ==> r[i] > r[j] || (r[i] == r[j] && i < j))
  {
  }

  /** With two jobs left the second one goes to another pool. */
  lemma SecondLargest(w: seq<nat>, r: seq<nat>, total: nat, b: nat, c: nat)
    requires |w| == |r| == POOLS && b == Largest(w, r, POOLS) < POOLS && c == Largest(w, r[b := 0], POOLS) < POOLS
    requires Sum(r) == total + total && forall k | 0 <= k < POOLS :: r[k] < total && (w[k] == 0 ==> r[k] == 0)
    ensures b != c && w[c] != 0
    ensures forall k | 0 <= k < POOLS && k != b && w[k] != 0 :: r[k] <= r[c] && (k < c ==> r[k] < r[c])
  {
    var s := r[b := 0];
    hide Largest;
    assert forall k | 0 <= k < POOLS && k != b :: r[k] == s[k];
  }

  /** One job left goes to the largest remainder. */
  lemma FillOnce(w: seq<nat>, jobs: seq<nat>, rem: seq<nat>)
    requires |w| == |jobs| == |rem| == POOLS && Sum(jobs) == FRAME_JOBS - 1
    requires Largest(w, rem, POOLS) < POOLS
    ensures var b := Largest(w, rem, POOLS);
            FillUp(w, jobs, rem) == jobs[b := jobs[b] + 1]
  {
    hide FillUp, Largest;
    var b := Largest(w, rem, POOLS);
    FillStep(w, jobs, rem);
    FillStep(w, jobs[b := jobs[b] + 1], rem[b := 0]);
  }

  lemma FillStep(w: seq<nat>, jobs: seq<nat>, rem: seq<nat>)
    requires |w| == |jobs| == |rem| == POOLS
    ensures var b := Largest(w, rem, POOLS);
            FillUp(w, jobs, rem) == if Sum(jobs) >= FRAME_JOBS || b == POOLS then jobs
                                    else FillUp(w, jobs[b := jobs[b] + 1], rem[b := 0])
  {
    hide Largest, Sum;
  }

  /** Two jobs left go to two different pools when every remainder is positive. */
  lemma FillTwice(w: seq<nat>, jobs: seq<nat>, rem: seq<nat>)
    requires |w| == |jobs| == |rem| == POOLS && Sum(jobs) == FRAME_JOBS - 2
    requires forall i | 0 <= i < POOLS :: w[i] != 0 && rem[i] != 0
    ensures forall k | 0 <= k < POOLS :: FillUp(w, jobs, rem)[k] <= jobs[k] + 1
  {
    hide Largest, FillUp, Sum;
    TwoDifferent(w, rem);
    var b := Largest(w, rem, POOLS);
    FillTwoSteps(w, jobs, rem, b, Largest(w, rem[b := 0], POOLS));
    TwoUpdates(jobs, b, Largest(w, rem[b := 0], POOLS));
  }

  lemma FillTwoSteps(w: seq<nat>, jobs: seq<nat>, rem: seq<nat>, b: nat, c: nat)
    requires |w| == |jobs| == |rem| == POOLS && Sum(jobs) == FRAME_JOBS - 2
    requires b == Largest(w, rem, POOLS) < POOLS && c == Largest(w, rem[b := 0], POOLS) < POOLS
    ensures var once := jobs[b := jobs[b] + 1];
            FillUp(w, jobs, rem) == once[c := once[c] + 1]
  {
    hide Largest, FillUp;
    FillStep(w, jobs, rem);
    OneMoreJob(jobs, b);
    hide Sum;
    FillOnce(w, jobs[b := jobs[b] + 1], rem[b := 0]);
  }

  lemma TwoUpdates(jobs: seq<nat>, b: nat, c: nat)
    requires |jobs| == POOLS && b < POOLS && c < POOLS && b != c
    ensures var once := jobs[b := jobs[b] + 1];
            forall k | 0 <= k < POOLS :: once[c := once[c] + 1][k] <= jobs[k] + 1
  {
  }

  lemma OneMoreJob(jobs: seq<nat>, b: nat)
    requires |jobs| == POOLS && b < POOLS
    ensures Sum(jobs[b := jobs[b] + 1]) == Sum(jobs) + 1
  {
  }

  lemma TwoDifferent(w: seq<nat>, rem: seq<nat>)
    requires |w| == |rem| == POOLS
    requires forall i | 0 <= i < POOLS :: w[i] != 0 && rem[i] != 0
    ensures var b := Largest(w, rem, POOLS);
            b < POOLS && Largest(w, rem[b := 0], POOLS) < POOLS && Largest(w, rem[b := 0], POOLS) != b
  {
    hide Largest;
    var b := Largest(w, rem, POOLS);
    assert w[0] != 0 && b < POOLS;
    assert rem[b := 0][if b == 0 then 1 else 0] != 0;
  }

  lemma AllRemain(t: nat, r: seq<nat>)
    requires |r| == POOLS && Sum(r) == Times(t, 2)
    requires forall i | 0 <= i < POOLS :: r[i] < t
    ensures forall i | 0 <= i < POOLS :: r[i] != 0
  {
    assert Times(t, 2) == t + t;
  }

  lemma SomeRemains(t: nat, r: seq<nat>, left: nat)
    requires |r| == POOLS && t > 0 && left > 0 && Sum(r) == Times(t, left)
    ensures r[0] != 0 || r[1] != 0 || r[2] != 0
  {
    TimesOnce(t, 0);
    TimesMonotone(t, 1, left);
  }

  /** Whether a quota is neither the pool's share rounded down nor the share rounded up. */
  predicate Overshoots(w: seq<nat>, total: nat, k: nat)
    requires |w| == POOLS && total > 0 && k < POOLS
  {
    var q := Floors(w, total)[k];
    var quota := Quotas(w, total)[k];
    quota != q && !(quota == q + 1 && Remainders(w, total)[k] != 0)
  }

  /** WHEN A QUOTA OVERSHOOTS: exactly when rounding down leaves two jobs, one pool rounds to
      nothing, and that pool has the largest remainder: it is given its minimum, keeps its
      remainder, and is topped up again. */
  lemma OvershootsIff(w: seq<nat>, total: nat, k: nat)
    requires |w| == POOLS && total == Sum(w) && total > 0 && k < POOLS
    ensures Overshoots(w, total, k) <==>
              && Sum(Floors(w, total)) == FRAME_JOBS - 2 && Empties(w, total) == 1
              && w[k] != 0 && Floors(w, total)[k] == 0
              && Largest(w, Remainders(w, total), POOLS) == k
  {
    FloorsSum(w, total);
    var q, r := Floors(w, total), Remainders(w, total);
    var left := FRAME_JOBS - Sum(q);
    var m := MinOne(w, q, 0);
    MinOneBounds(w, q, 0);
    MinOneSum(w, q);
    hide Floors, Remainders, MinOne, Times, Largest, FillUp;
    if Sum(m) == FRAME_JOBS {
      FillStep(w, m, r);
      assert Quotas(w, total) == m;
    } else {
      SomeRemains(total, r, left);
      if Sum(m) == FRAME_JOBS - 1 {
        FillOnce(w, m, r);
        OneTopsUp(w, q, r, m, left, k);
      } else {
        AllRemain(total, r);
        FillTwice(w, m, r);
        FillUpBounds(w, m, r);
        assert m == q;
      }
    }
  }

  /** With one job left after the minimum, a quota overshoots where that job goes to a pool that was
      given its minimum. */
  lemma OneTopsUp(w: seq<nat>, q: seq<nat>, r: seq<nat>, m: seq<nat>, left: nat, k: nat)
    requires |w| == |q| == |r| == |m| == POOLS && k < POOLS
    requires Sum(m) == FRAME_JOBS - 1 && left == FRAME_JOBS - Sum(q) <= 2
    requires forall i | 0 <= i < POOLS :: m[i] == q[i] || (m[i] == 1 && q[i] == 0 && w[i] != 0)
    requires forall i | 0 <= i < POOLS && w[i] != 0 && q[i] == 0 :: m[i] != 0
    requires forall i | 0 <= i < POOLS && w[i] == 0 :: r[i] == 0
    requires forall i | 0 <= i < POOLS && w[i] != 0 && q[i] == 0 :: r[i] != 0
    requires r[0] != 0 || r[1] != 0 || r[2] != 0
    ensures var b := Largest(w, r, POOLS);
            var quota := if b == k then m[k] + 1 else m[k];
            var empties := (if w[0] != 0 && q[0] == 0 then 1 else 0) + (if w[1] != 0 && q[1] == 0 then 1 else 0) +
                           (if w[2] != 0 && q[2] == 0 then 1 else 0);
            && b < POOLS
            && ((quota != q[k] && !(quota == q[k] + 1 && r[k] != 0)) <==>
                  left == 2 && empties == 1 && w[k] != 0 && q[k] == 0 && b == k)
  {
    hide Largest;
  }

  /** Weights 1, 40 and 40 give the first pool two jobs for a share of less than one. */
  lemma ThreePoolsOvershoot()
    ensures Overshoots([1, 40, 40], 81, 0) && Quotas([1, 40, 40], 81)[0] == 2
  {
    var w := [1, 40, 40];
    var q, r := Floors(w, 81), Remainders(w, 81);
    assert q[0] == 0 && q[1] == 39 && q[2] == 39 && r[0] == 80 && r[1] == 41 && r[2] == 41;
    assert Largest(w, r, 1) == 0 && Largest(w, r, 2) == 0 && Largest(w, r, 3) == 0;
    OvershootsIff(w, 81, 0);
    MinOneBounds(w, q, 0);
    MinOneSum(w, q);
    FillOnce(w, MinOne(w, q, 0), r);
  }
}

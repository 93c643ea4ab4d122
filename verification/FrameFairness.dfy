/** That the round robin is one: no pool with slices left waits long, whatever the others have. */
module FrameFairness {
  import opened FrameQuotas
  import opened FrameDelivery

  // ----- what the credits keep

  ghost predicate Several(c: seq<nat>)
    requires |c| == POOLS
  {
    (c[0] > 0 && c[1] > 0) || (c[0] > 0 && c[2] > 0) || (c[1] > 0 && c[2] > 0)
  }

  /** The credit of a pool in a frame that had `t` slices and has `left`: never below two thirds of
      `t`; while several pools have slices left, bounded above too, and more so for one that has none. */
  predicate CreditOk(c: nat, s: int, several: bool, left: nat, t: nat) {
    && -2 * t <= 3 * s
    && (several && c > 0 ==> 6 * s <= 3 * left + 3 + 2 * t)
    && (several && c == 0 ==> 3 * s <= t)
  }

  ghost predicate Fair(f: Frame, t: nat) {
    && Shape(f) && Sum(f.smooth) == 0 && Sum(f.chunks) <= t
    && forall i | 0 <= i < POOLS :: CreditOk(f.chunks[i], f.smooth[i], Several(f.chunks), Sum(f.chunks), t)
  }

  /** One turn for the pool served, with `c` slices left, and the two others. */
  lemma TurnOk(c: nat, s: int, c1: nat, s1: int, c2: nat, s2: int, t: nat)
    requires c > 0 && s + s1 + s2 == 0
    requires c1 > 0 ==> s1 + c1 <= s + c
    requires c2 > 0 ==> s2 + c2 <= s + c
    requires var left := c + c1 + c2;
             var several := c1 > 0 || c2 > 0;
             && left <= t && CreditOk(c, s, several, left, t)
             && CreditOk(c1, s1, several, left, t) && CreditOk(c2, s2, several, left, t)
    ensures var left := c + c1 + c2;
            var several := (c > 1 && c1 > 0) || (c > 1 && c2 > 0) || (c1 > 0 && c2 > 0);
            && CreditOk(c - 1, s + c - left, several, left - 1, t)
            && CreditOk(c1, s1 + c1, several, left - 1, t) && CreditOk(c2, s2 + c2, several, left - 1, t)
    ensures c1 > 0 ==> 6 * (s1 + c1) <= 3 * (c + c1 + c2) + 2 * t
    ensures c2 > 0 ==> 6 * (s2 + c2) <= 3 * (c + c1 + c2) + 2 * t
  {
  }

  /** The credits after a turn. */
  lemma CreditsOf(f: Frame, lo: seq<nat>)
    requires FrameInv(f, lo) && HasWork(f)
    ensures var best := NextSlice(f).pool;
            && best < POOLS && f.chunks[best] > 0
            && Served(f).chunks == f.chunks[best := f.chunks[best] - 1]
            && (forall i | 0 <= i < POOLS && f.chunks[i] > 0 ::
                  f.smooth[i] + f.chunks[i] <= f.smooth[best] + f.chunks[best])
            && (forall i | 0 <= i < POOLS && i != best :: Served(f).smooth[i] == f.smooth[i] + f.chunks[i])
            && Served(f).smooth[best] == f.smooth[best] + f.chunks[best] - Sum(f.chunks)
  {
    ServedKeepsInv(f, lo);
    PendingIff(f, lo);
    assert PendingChunks(f, POOLS) == Sum(f.chunks) by { AllPending(f, lo); }
    hide Balanced, CeilDiv, PendingChunks;
  }

  /** Only the pool served pays: it loses the jobs and one slice, and credit worth all the slices that
      were left; every pool gets credit for the slices it has left. */
  ghost predicate Charges(f: Frame, g: Frame, best: nat, slice: nat)
    requires Shape(f)
  {
    && Shape(g) && best < POOLS && g.weight == f.weight
    && forall i | 0 <= i < POOLS ::
         && f.jobs[i] == g.jobs[i] + (if i == best then slice else 0)
         && f.chunks[i] == g.chunks[i] + (if i == best then 1 else 0)
         && g.smooth[i] == f.smooth[i] + f.chunks[i] - (if i == best then Sum(f.chunks) else 0)
  }

  lemma ServedCharges(f: Frame, lo: seq<nat>)
    requires FrameInv(f, lo) && HasWork(f)
    ensures Charges(f, Served(f), NextSlice(f).pool, NextSlice(f).jobs)
    ensures forall i | 0 <= i < POOLS && f.chunks[i] > 0 ::
              var best := NextSlice(f).pool;
              best < POOLS && f.smooth[i] + f.chunks[i] <= f.smooth[best] + f.chunks[best]
  {
    CreditsOf(f, lo);
    ServedKeepsInv(f, lo);
    ServedKeepsWeight(f);
    hide Balanced, NextSlice, Served, HasWork, Sum;
  }

  lemma ServedKeepsWeight(f: Frame)
    requires Shape(f) && HasWork(f)
    ensures Served(f).weight == f.weight
  {
  }

  lemma AllPending(f: Frame, lo: seq<nat>)
    requires FrameInv(f, lo)
    ensures PendingChunks(f, POOLS) == Sum(f.chunks)
  {
    PendingIff(f, lo);
    assert PendingChunks(f, 1) == f.chunks[0];
    assert PendingChunks(f, 2) == f.chunks[0] + f.chunks[1];
  }

  /** The pools in another order. */
  predicate Others(b: nat, i: nat, j: nat) {
    b < POOLS && i < POOLS && j < POOLS && b != i && b != j && i != j
  }

  lemma AnyOrder(c: seq<nat>, b: nat, i: nat, j: nat)
    requires |c| == POOLS && Others(b, i, j)
    ensures Sum(c) == c[b] + c[i] + c[j]
    ensures Several(c) <==> (c[b] > 0 && c[i] > 0) || (c[b] > 0 && c[j] > 0) || (c[i] > 0 && c[j] > 0)
  {
  }

  lemma AnyOrderSmooth(s: seq<int>, b: nat, i: nat, j: nat)
    requires |s| == POOLS && Others(b, i, j)
    ensures Sum(s) == s[b] + s[i] + s[j]
  {
  }

  /** One pool's part of `Fair`. */
  ghost predicate FairFor(f: Frame, k: nat, t: nat)
    requires Shape(f) && k < POOLS
  {
    CreditOk(f.chunks[k], f.smooth[k], Several(f.chunks), Sum(f.chunks), t)
  }

  lemma FairParts(f: Frame, b: nat, i: nat, j: nat, t: nat)
    requires Shape(f) && Others(b, i, j)
    ensures Fair(f, t) <==>
            && Sum(f.smooth) == 0 && Sum(f.chunks) <= t
            && FairFor(f, b, t) && FairFor(f, i, t) && FairFor(f, j, t)
  {
    hide CreditOk, Several;
    if FairFor(f, b, t) && FairFor(f, i, t) && FairFor(f, j, t) {
      forall k | 0 <= k < POOLS ensures CreditOk(f.chunks[k], f.smooth[k], Several(f.chunks), Sum(f.chunks), t) {
        assert k == b || k == i || k == j;
      }
    }
  }

  /** `g` is `f` after a turn in which `b` was served. */
  ghost predicate Turned(f: Frame, g: Frame, b: nat, i: nat, j: nat)
    requires Shape(f) && Shape(g) && Others(b, i, j)
  {
    && f.chunks[b] > 0
    && (f.chunks[i] > 0 ==> f.smooth[i] + f.chunks[i] <= f.smooth[b] + f.chunks[b])
    && (f.chunks[j] > 0 ==> f.smooth[j] + f.chunks[j] <= f.smooth[b] + f.chunks[b])
    && g.chunks[b] == f.chunks[b] - 1 && g.chunks[i] == f.chunks[i] && g.chunks[j] == f.chunks[j]
    && g.smooth[i] == f.smooth[i] + f.chunks[i] && g.smooth[j] == f.smooth[j] + f.chunks[j]
    && g.smooth[b] == f.smooth[b] + f.chunks[b] - Sum(f.chunks)
  }

  lemma TurnIsFair(f: Frame, g: Frame, b: nat, i: nat, j: nat, t: nat)
    requires Fair(f, t) && Shape(g) && Others(b, i, j) && Turned(f, g, b, i, j)
    ensures Fair(g, t)
    ensures f.chunks[i] > 0 ==> 6 * (f.smooth[i] + f.chunks[i]) <= 3 * Sum(f.chunks) + 2 * t
    ensures f.chunks[j] > 0 ==> 6 * (f.smooth[j] + f.chunks[j]) <= 3 * Sum(f.chunks) + 2 * t
  {
    FairParts(f, b, i, j, t);
    FairParts(g, b, i, j, t);
    AnyOrder(f.chunks, b, i, j);
    AnyOrder(g.chunks, b, i, j);
    AnyOrderSmooth(f.smooth, b, i, j);
    AnyOrderSmooth(g.smooth, b, i, j);
    hide Fair, CreditOk, Several, Sum;
    TurnOk(f.chunks[b], f.smooth[b], f.chunks[i], f.smooth[i], f.chunks[j], f.smooth[j], t);
  }

  /** A turn keeps the credits in bounds; a pool with slices left that is not served had no more
      credit than this. */
  lemma ServedStaysFair(f: Frame, lo: seq<nat>, t: nat)
    requires FrameInv(f, lo) && HasWork(f) && Fair(f, t)
    ensures Fair(Served(f), t)
    ensures forall j | 0 <= j < POOLS && j != NextSlice(f).pool && f.chunks[j] > 0 ::
              6 * (f.smooth[j] + f.chunks[j]) <= 3 * Sum(f.chunks) + 2 * t
  {
    PoolInRange(f, lo);
    var best := NextSlice(f).pool;
    hide NextSlice, Served, HasWork, Fair, Sum, Turned, FrameInv;
    if best == 0 {
      ServedTurns(f, lo, 0, 1, 2);
      TurnIsFair(f, Served(f), 0, 1, 2, t);
    } else if best == 1 {
      ServedTurns(f, lo, 1, 0, 2);
      TurnIsFair(f, Served(f), 1, 0, 2, t);
    } else {
      ServedTurns(f, lo, 2, 0, 1);
      TurnIsFair(f, Served(f), 2, 0, 1, t);
    }
  }

  lemma PoolInRange(f: Frame, lo: seq<nat>)
    requires FrameInv(f, lo) && HasWork(f)
    ensures NextSlice(f).pool < POOLS
  {
    ServedKeepsInv(f, lo);
  }

  lemma ServedTurns(f: Frame, lo: seq<nat>, b: nat, i: nat, j: nat)
    requires FrameInv(f, lo) && HasWork(f) && Others(b, i, j) && NextSlice(f).pool == b
    ensures Turned(f, Served(f), b, i, j)
  {
    CreditsOf(f, lo);
    hide NextSlice, Served, HasWork, Sum, Balanced;
  }

  // ----- runs

  lemma FreshIsFair(w: seq<nat>, total: nat)
    requires |w| == POOLS && total == Sum(w) && total > 0
    ensures var f := FreshFrame(w, total);
            Fair(f, Sum(f.chunks)) && forall j | 0 <= j < POOLS :: f.smooth[j] == 0
  {
  }

  /** The slices of pool `j`. */
  function Count(slices: seq<Slice>, j: nat): nat {
    if slices == [] then 0 else (if slices[0].pool == j then 1 else 0) + Count(slices[1..], j)
  }

  /** Six times the credit of a pool that is passed over `n` times. */
  function Waited(s: int, n: nat, c: nat): int {
    6 * (s + n * c)
  }

  /** How many turns in a row may pass over a pool with `c` slices left, after `k` of a frame's `t`. */
  predicate WaitOk(n: nat, c: nat, t: nat, k: nat) {
    n * (2 * c + 1) <= 3 * t + 1 - k
  }

  /** And at the start of the frame. */
  predicate FirstWaitOk(n: nat, c: nat, t: nat) {
    3 * (n * (2 * c + 1)) <= 5 * t + 3
  }

  lemma NoWait(c: nat, t: nat, k: nat)
    requires k <= t
    ensures WaitOk(0, c, t, k) && FirstWaitOk(0, c, t)
  {
  }

  /** A pool that `n` turns pass over gathers credit in each. */
  lemma {:induction false} PassedOver(f: Frame, lo: seq<nat>, t: nat, n: nat, j: nat)
    requires FrameInv(f, lo) && Fair(f, t) && j < POOLS && f.chunks[j] > 0 && 0 < n <= Sum(f.chunks)
    requires Count(Run(f, n), j) == 0
    ensures Waited(f.smooth[j], n, f.chunks[j]) + 3 * (n - 1) <= 3 * Sum(f.chunks) + 2 * t
    decreases n
  {
    hide Balanced, NextSlice, Served, Fair;
    PendingIff(f, lo);
    ServedStaysFair(f, lo, t);
    CreditsOf(f, lo);
    ServedKeepsInv(f, lo);
    CountCons(NextSlice(f), Run(Served(f), n - 1), j);
    Gathers(f.smooth[j], n, f.chunks[j]);
    hide Waited;
    if n > 1 {
      SumAfterServe(f.chunks, NextSlice(f).pool);
      PassedOver(Served(f), lo, t, n - 1, j);
    }
  }

  lemma CountCons(first: Slice, rest: seq<Slice>, j: nat)
    ensures Count([first] + rest, j) == (if first.pool == j then 1 else 0) + Count(rest, j)
  {
    assert ([first] + rest)[1..] == rest;
  }

  lemma Gathers(s: int, n: nat, c: nat)
    requires n > 0
    ensures Waited(s + c, n - 1, c) == Waited(s, n, c) && Waited(s, 1, c) == 6 * (s + c)
  {
  }

  /** The frame after `k` turns. */
  ghost function AfterTurns(f: Frame, k: nat): (g: Frame)
    requires Shape(f)
    ensures Shape(g)
    decreases k
  {
    if k == 0 || !HasWork(f) then f else AfterTurns(Served(f), k - 1)
  }

  /** A run goes on from where it stands after `k` turns. */
  lemma {:induction false} RunSplits(f: Frame, lo: seq<nat>, t: nat, k: nat, n: nat, j: nat)
    requires FrameInv(f, lo) && Fair(f, t) && j < POOLS && k + n <= Sum(f.chunks)
    ensures var g := AfterTurns(f, k);
            && FrameInv(g, lo) && Fair(g, t) && Sum(g.chunks) == Sum(f.chunks) - k && (k == 0 ==> g == f)
            && |Run(f, k + n)| == k + n && |Run(g, n)| == n && Run(f, k + n)[k..] == Run(g, n)
            && g.chunks[j] == f.chunks[j] - Count(Run(f, k + n)[..k], j)
    decreases k
  {
    hide Balanced, NextSlice, Served, Fair, FrameInv;
    if k == 0 {
      RunLength(f, lo, n);
    } else {
      PendingSum(f, lo);
      ServedStaysFair(f, lo, t);
      CreditsOf(f, lo);
      ServedKeepsInv(f, lo);
      SumAfterServe(f.chunks, NextSlice(f).pool);
      RunSplits(Served(f), lo, t, k - 1, n, j);
      var rest := Run(Served(f), k + n - 1);
      assert ([NextSlice(f)] + rest)[k..] == rest[k - 1..];
      assert ([NextSlice(f)] + rest)[..k] == [NextSlice(f)] + rest[..k - 1];
      CountCons(NextSlice(f), rest[..k - 1], j);
    }
  }

  lemma PendingSum(f: Frame, lo: seq<nat>)
    requires FrameInv(f, lo)
    ensures Shape(f) && (HasWork(f) <==> Sum(f.chunks) > 0)
  {
    PendingIff(f, lo);
  }

  lemma {:induction false} RunLength(f: Frame, lo: seq<nat>, n: nat)
    requires FrameInv(f, lo) && n <= Sum(f.chunks)
    ensures |Run(f, n)| == n
    decreases n
  {
    hide Balanced, NextSlice, Served, FrameInv;
    if n > 0 {
      PendingSum(f, lo);
      CreditsOf(f, lo);
      ServedKeepsInv(f, lo);
      SumAfterServe(f.chunks, NextSlice(f).pool);
      RunLength(Served(f), lo, n - 1);
    }
  }

  /** A shorter run is the start of a longer one. */
  lemma {:induction false} RunPrefix(f: Frame, m: nat, n: nat)
    requires Shape(f) && n <= m && n <= |Run(f, m)|
    ensures Run(f, m)[..n] == Run(f, n)
    decreases n
  {
    hide HasWork, NextSlice, Served;
    if n > 0 {
      RunPrefix(Served(f), m - 1, n - 1);
    }
  }

  /** What pool `j` has left after `k` slices. */
  function Left(f: Frame, slices: seq<Slice>, k: nat, j: nat): int
    requires j < |f.chunks| && k <= |slices|
  {
    f.chunks[j] - Count(slices[..k], j)
  }

  /** How many of the `n` slices behind the first `k` are the pool's. */
  function Among(slices: seq<Slice>, k: nat, n: nat, j: nat): nat
    requires k + n <= |slices|
  {
    Count(slices[k..k + n], j)
  }

  /** The frame from which a window of the slices is handed out. */
  lemma Window(f: Frame, lo: seq<nat>, slices: seq<Slice>, k: nat, n: nat, j: nat) returns (g: Frame)
    requires FrameInv(f, lo) && Fair(f, Sum(f.chunks)) && slices == Run(f, Sum(f.chunks)) && j < POOLS
    requires k + n <= |slices| == Sum(f.chunks)
    ensures FrameInv(g, lo) && Fair(g, |slices|) && Sum(g.chunks) == |slices| - k && (k == 0 ==> g == f)
    ensures g.chunks[j] == Left(f, slices, k, j) && Count(Run(g, n), j) == Among(slices, k, n, j)
  {
    FrameShape(f, lo);
    hide FrameInv, Fair, Sum, Run, AfterTurns, Left, Among, Count, HasWork;
    RunSplits(f, lo, Sum(f.chunks), k, n, j);
    RunPrefix(f, Sum(f.chunks), k + n);
    g := AfterTurns(f, k);
    StartAndEnd(f, slices, Run(f, k + n), Run(g, n), k, n, j);
  }

  lemma StartAndEnd(f: Frame, slices: seq<Slice>, first: seq<Slice>, last: seq<Slice>, k: nat, n: nat, j: nat)
    requires Shape(f) && j < POOLS && k + n <= |slices|
    requires slices[..k + n] == first && first[k..] == last
    ensures Left(f, slices, k, j) == f.chunks[j] - Count(first[..k], j)
    ensures Among(slices, k, n, j) == Count(last, j)
  {
    assert slices[..k + n][..k] == slices[..k] && slices[..k + n][k..] == slices[k..k + n];
  }

  lemma FrameShape(f: Frame, lo: seq<nat>)
    requires FrameInv(f, lo)
    ensures Shape(f)
  {
  }

  /** The wait from such a frame on. */
  lemma WaitsFrom(g: Frame, lo: seq<nat>, n: nat, j: nat, t: nat, k: nat)
    requires FrameInv(g, lo) && Fair(g, t) && Sum(g.chunks) == t - k && j < POOLS && 0 < n <= t - k
    requires g.chunks[j] > 0 && Count(Run(g, n), j) == 0
    ensures WaitOk(n, g.chunks[j], t, k)
    ensures k == 0 && g.smooth[j] == 0 ==> FirstWaitOk(n, g.chunks[j], t)
  {
    PassedOver(g, lo, t, n, j);
    FairBelow(g, t, j);
    hide FrameInv, Fair, Sum, Count, Run, Waited, WaitOk, FirstWaitOk;
    WaitBound(g.smooth[j], n, g.chunks[j], t, k);
    if k == 0 && g.smooth[j] == 0 {
      FirstBound(n, g.chunks[j], t);
    }
  }

  lemma NobodyWaitsIn(f: Frame, lo: seq<nat>, slices: seq<Slice>, k: nat, n: nat, j: nat)
    requires FrameInv(f, lo) && Fair(f, Sum(f.chunks)) && slices == Run(f, Sum(f.chunks)) && j < POOLS
    requires f.smooth[j] == 0 && k + n <= |slices|
    requires Left(f, slices, k, j) > 0 && Among(slices, k, n, j) == 0
    ensures var t, c := |slices|, Left(f, slices, k, j);
            WaitOk(n, c, t, k) && (k == 0 ==> FirstWaitOk(n, c, t))
  {
    RunLength(f, lo, Sum(f.chunks));
    hide FrameInv, Fair, Sum, Run, WaitOk, FirstWaitOk, Left, Among;
    if n > 0 {
      var g := Window(f, lo, slices, k, n, j);
      WaitsFrom(g, lo, n, j, |slices|, k);
    } else {
      NoWait(Left(f, slices, k, j), |slices|, k);
    }
  }

  /** THE ROUND ROBIN IS ONE. In a frame of `t` slices, a pool with `c` of them left after `k` turns is
      not passed over for more than (3t + 1 - k) / (2c + 1) turns, and at the start for no more than
      (5t + 3) / (6c + 3), whatever the weights of the others. */
  lemma NobodyWaitsLong(w: seq<nat>, total: nat, f: Frame, slices: seq<Slice>, k: nat, n: nat, j: nat)
    requires |w| == POOLS && total == Sum(w) && total > 0 && j < POOLS
    requires f == FreshFrame(w, total) && slices == Run(f, Sum(f.chunks))
    requires k + n <= |slices|
    requires Left(f, slices, k, j) > 0 && Among(slices, k, n, j) == 0
    ensures var t, c := |slices|, Left(f, slices, k, j);
            WaitOk(n, c, t, k) && (k == 0 ==> FirstWaitOk(n, c, t))
  {
    var lo := FreshFrameInv(w, total);
    FreshIsFair(w, total);
    hide FreshFrame, FrameInv, Fair, Run, WaitOk, FirstWaitOk, Sum, Left, Among;
    NobodyWaitsIn(f, lo, slices, k, n, j);
  }

  lemma FairBelow(f: Frame, t: nat, j: nat)
    requires Fair(f, t) && j < POOLS
    ensures -2 * t <= 3 * f.smooth[j]
  {
  }

  lemma WaitBound(s: int, n: nat, c: nat, t: nat, k: nat)
    requires Waited(s, n, c) + 3 * (n - 1) <= 3 * (t - k) + 2 * t && -2 * t <= 3 * s
    ensures WaitOk(n, c, t, k)
  {
    assert n * (2 * c + 1) == 2 * (n * c) + n;
  }

  lemma FirstBound(n: nat, c: nat, t: nat)
    requires Waited(0, n, c) + 3 * (n - 1) <= 5 * t
    ensures FirstWaitOk(n, c, t)
  {
    assert n * (2 * c + 1) == 2 * (n * c) + n;
  }
}

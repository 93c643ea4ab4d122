/** Handing out a frame: quotas are cut into slices of at most 12 jobs, and the next slice
    goes to the pool with the largest credit. */
module FrameDelivery {
  import opened FrameQuotas

  /** The scheduler's arrays as values. */
  datatype Frame = Frame(jobs: seq<nat>, chunks: seq<nat>, weight: seq<nat>, smooth: seq<int>)

  datatype Slice = Slice(pool: nat, jobs: nat)

  ghost predicate Shape(f: Frame) {
    |f.jobs| == |f.chunks| == |f.weight| == |f.smooth| == POOLS
  }

  function CeilDiv(a: nat, b: nat): nat
    requires b > 0
  {
    (a + b - 1) / b
  }

  /** What `pool_slice_scheduler_build_frame` leaves. */
  ghost function FreshFrame(w: seq<nat>, total: nat): (f: Frame)
    requires |w| == POOLS && total > 0
    ensures Shape(f)
  {
    var quotas := Quotas(w, total);
    Frame(quotas,
          seq(POOLS, i requires 0 <= i < POOLS => CeilDiv(quotas[i], SLICE_MAX_JOBS)), w, [0, 0, 0])
  }

  predicate Pending(f: Frame, i: nat)
    requires i < |f.jobs| && i < |f.chunks|
  {
    f.jobs[i] > 0 && f.chunks[i] > 0
  }

  ghost predicate HasWork(f: Frame)
    requires Shape(f)
  {
    Pending(f, 0) || Pending(f, 1) || Pending(f, 2)
  }

  function Credit(f: Frame, i: nat): int
    requires i < |f.smooth| && i < |f.jobs| && i < |f.chunks|
  {
    if Pending(f, i) then f.smooth[i] + f.chunks[i] else f.smooth[i]
  }

  /** `best` is the first pending pool among the first `n` with the largest credit, or
      `POOLS` when none is pending. */
  ghost predicate IsPick(f: Frame, best: nat, n: nat)
    requires Shape(f) && n <= POOLS
  {
    if best == POOLS then forall i | 0 <= i < n :: !Pending(f, i)
    else best < n && Pending(f, best) && forall i | 0 <= i < n && Pending(f, i) ::
           Credit(f, i) <= Credit(f, best) && (i < best ==> Credit(f, i) < Credit(f, best))
  }

  /** One more pool looked at. */
  lemma PickNext(f: Frame, best: nat, n: nat)
    requires Shape(f) && n < POOLS && IsPick(f, best, n)
    ensures best == POOLS || best < n
    ensures best < n ==> Pending(f, best)
    ensures Pending(f, n) <==> f.jobs[n] != 0 && f.chunks[n] != 0
    ensures Credit(f, n) == if Pending(f, n) then f.smooth[n] + f.chunks[n] else f.smooth[n]
    ensures PendingChunks(f, n + 1) == PendingChunks(f, n) + if Pending(f, n) then f.chunks[n] else 0
    ensures IsPick(f, if Pending(f, n) && (best == POOLS || Credit(f, n) > Credit(f, best)) then n else best, n + 1)
  {
  }

  lemma OnePick(f: Frame, best: nat)
    requires Shape(f) && IsPick(f, best, POOLS)
    ensures best == Pick(f)
  {
    hide Credit, Pending;
    var other := Pick(f);
    assert IsPick(f, other, POOLS);
  }

  /** The pool to serve. */
  ghost function Pick(f: Frame): (best: nat)
    requires Shape(f)
    ensures IsPick(f, best, POOLS)
  {
    if Pending(f, 0) && (!Pending(f, 1) || Credit(f, 1) <= Credit(f, 0)) &&
       (!Pending(f, 2) || Credit(f, 2) <= Credit(f, 0)) then 0
    else if Pending(f, 1) && (!Pending(f, 2) || Credit(f, 2) <= Credit(f, 1)) then 1
    else if Pending(f, 2) then 2
    else POOLS
  }

  ghost function PendingChunks(f: Frame, n: nat): nat
    requires Shape(f) && n <= POOLS
  {
    if n == 0 then 0 else PendingChunks(f, n - 1) + if Pending(f, n - 1) then f.chunks[n - 1] else 0
  }

  /** The slice handed out next. */
  ghost function NextSlice(f: Frame): Slice
    requires Shape(f) && HasWork(f)
  {
    var best := Pick(f);
    Slice(best, CeilDiv(f.jobs[best], f.chunks[best]))
  }

  /** The frame after handing it out. */
  ghost function Served(f: Frame): (g: Frame)
    requires Shape(f) && HasWork(f)
    ensures Shape(g)
  {
    var best := Pick(f);
    var slice := NextSlice(f).jobs;
    Frame(f.jobs[best := if f.jobs[best] > slice then f.jobs[best] - slice else 0],
          f.chunks[best := f.chunks[best] - 1],
          f.weight,
          [Credit(f, 0), Credit(f, 1), Credit(f, 2)][best := Credit(f, best) - PendingChunks(f, POOLS)])
  }

  // ----- what every frame-long run keeps

  /** Chunks and jobs of one pool, when the pool's slices are to be of size `lo` or `lo + 1`. */
  predicate Balanced(jobs: nat, chunks: nat, lo: nat) {
    && chunks <= jobs <= SLICE_MAX_JOBS * chunks
    && Times(lo, chunks) <= jobs <= Times(lo + 1, chunks)
  }

  ghost predicate FrameInv(f: Frame, lo: seq<nat>) {
    && Shape(f) && |lo| == POOLS
    && (forall i | 0 <= i < POOLS :: Balanced(f.jobs[i], f.chunks[i], lo[i]))
    && Sum(f.smooth) == 0
  }

  lemma CeilBounds(a: nat, b: nat)
    requires b > 0
    ensures Times(b, CeilDiv(a, b) - 1) < a <= Times(b, CeilDiv(a, b))
  {
    var q: int := CeilDiv(a, b);
    assert Times(b, q) <= a + b - 1 < Times(b, q) + b by { FloorTimes(a + b - 1, b); }
    TimesOnce(b, q - 1);
  }

  /** The size of the slice taken from a balanced pool. */
  lemma SliceSize(jobs: nat, chunks: nat, lo: nat, slice: nat)
    requires Balanced(jobs, chunks, lo) && chunks > 0
    requires Times(chunks, slice - 1) < jobs <= Times(chunks, slice)
    ensures 1 <= slice <= SLICE_MAX_JOBS && lo <= slice <= lo + 1
  {
    hide Times;
    TimesOnce(chunks, 0);
    TimesOnce(chunks, lo);
    TimesOnce(chunks, lo + 1);
    TimesMonotone(chunks, slice, 0);
    TimesMonotone(chunks, SLICE_MAX_JOBS, slice - 1);
    assert Times(chunks, SLICE_MAX_JOBS) == SLICE_MAX_JOBS * chunks by { TwelveTimes(chunks); }
    TimesMonotone(chunks, lo + 1, slice - 1);
    TimesMonotone(chunks, slice, lo - 1);
    TimesOnce(chunks, lo - 1);
  }

  lemma TwelveTimes(chunks: nat)
    ensures Times(chunks, SLICE_MAX_JOBS) == SLICE_MAX_JOBS * chunks
  {
  }

  /** Taking the rounded-up share of the remaining chunks keeps the rest balanced. */
  lemma RestBalanced(jobs: nat, chunks: nat, lo: nat, slice: nat)
    requires Balanced(jobs, chunks, lo) && chunks > 0
    requires 1 <= slice <= SLICE_MAX_JOBS && lo <= slice <= lo + 1
    requires Times(chunks, slice - 1) < jobs <= Times(chunks, slice)
    ensures slice <= jobs && Balanced(jobs - slice, chunks - 1, lo)
  {
    hide Times;
    TimesOnce(chunks, lo);
    TimesOnce(chunks - 1, lo);
    TimesOnce(chunks, lo + 1);
    TimesOnce(chunks - 1, lo + 1);
    TimesOnce(chunks, slice);
    TimesOnce(chunks, slice - 1);
    TimesMonotone(chunks - 1, 1, slice - 1);
    TimesOnce(chunks - 1, 0);
    TimesMonotone(chunks - 1, 0, slice - 1);
    TimesMonotone(chunks - 1, 0, lo);
    TimesMonotone(chunks - 1, slice, SLICE_MAX_JOBS);
    TwelveTimes(chunks - 1);
  }

  lemma SliceKeepsBalance(jobs: nat, chunks: nat, lo: nat)
    requires Balanced(jobs, chunks, lo) && chunks > 0
    ensures var slice := CeilDiv(jobs, chunks);
            && 1 <= slice <= SLICE_MAX_JOBS && lo <= slice <= lo + 1 && slice <= jobs
            && Balanced(jobs - slice, chunks - 1, lo)
  {
    hide Times, CeilDiv;
    var slice := CeilDiv(jobs, chunks);
    CeilBounds(jobs, chunks);
    SliceSize(jobs, chunks, lo, slice);
    RestBalanced(jobs, chunks, lo, slice);
  }

  /** One step keeps the invariant and hands out a slice of the promised size; the clamp to
      12 and the failure branch of the source are never taken. */
  lemma ServedKeepsInv(f: Frame, lo: seq<nat>)
    requires FrameInv(f, lo) && HasWork(f)
    ensures var slice := NextSlice(f);
            && slice.pool < POOLS && 1 <= slice.jobs <= SLICE_MAX_JOBS
            && lo[slice.pool] <= slice.jobs <= lo[slice.pool] + 1
            && slice.jobs <= f.jobs[slice.pool] && PendingChunks(f, POOLS) > 0
    ensures FrameInv(Served(f), lo)
    ensures Served(f).jobs == f.jobs[NextSlice(f).pool := f.jobs[NextSlice(f).pool] - NextSlice(f).jobs]
    ensures Served(f).chunks == f.chunks[NextSlice(f).pool := f.chunks[NextSlice(f).pool] - 1]
  {
    hide Balanced, CeilDiv;
    var best := Pick(f);
    assert Balanced(f.jobs[best], f.chunks[best], lo[best]);
    SliceKeepsBalance(f.jobs[best], f.chunks[best], lo[best]);
    assert PendingChunks(f, POOLS)
        == PendingChunks(f, 1) + (if Pending(f, 1) then f.chunks[1] else 0) + 
           (if Pending(f, 2) then f.chunks[2] else 0);
    assert Sum([Credit(f, 0), Credit(f, 1), Credit(f, 2)]) == Sum(f.smooth) + PendingChunks(f, POOLS);
  }

  /** A pool is pending exactly while it has chunks, and exactly while it has jobs. */
  lemma PendingIff(f: Frame, lo: seq<nat>)
    requires FrameInv(f, lo)
    ensures forall i | 0 <= i < POOLS :: (Pending(f, i) <==> f.chunks[i] > 0) && (Pending(f, i) <==> f.jobs[i] > 0)
    ensures HasWork(f) <==> Sum(f.chunks) > 0
  {
  }

  /** The slices handed out until the frame is used up, ready set and weights unchanged. */
  ghost function Run(f: Frame, n: nat): (slices: seq<Slice>)
    requires Shape(f)
    decreases n
  {
    if n == 0 || !HasWork(f) then [] else [NextSlice(f)] + Run(Served(f), n - 1)
  }

  /** Jobs handed to pool `i`. */
  function Delivered(slices: seq<Slice>, i: nat): nat {
    if slices == [] then 0
    else (if slices[0].pool == i then slices[0].jobs else 0) + Delivered(slices[1..], i)
  }

  lemma DeliveredCons(first: Slice, rest: seq<Slice>, i: nat)
    ensures Delivered([first] + rest, i) == (if first.pool == i then first.jobs else 0) + Delivered(rest, i)
  {
    assert ([first] + rest)[1..] == rest;
  }

  lemma SumAfterServe(chunks: seq<nat>, i: nat)
    requires |chunks| == POOLS && i < POOLS && chunks[i] > 0
    ensures Sum(chunks[i := chunks[i] - 1]) == Sum(chunks) - 1
  {
  }

  lemma {:induction false} RunDelivers(f: Frame, lo: seq<nat>, n: nat, i: nat)
    requires FrameInv(f, lo) && n == Sum(f.chunks) && i < POOLS
    ensures |Run(f, n)| == n
    ensures Delivered(Run(f, n), i) == f.jobs[i]
    decreases n
  {
    hide Balanced, NextSlice, Served;
    PendingIff(f, lo);
    if n == 0 {
    } else {
      ServedKeepsInv(f, lo);
      SumAfterServe(f.chunks, NextSlice(f).pool);
      RunDelivers(Served(f), lo, n - 1, i);
      DeliveredCons(NextSlice(f), Run(Served(f), n - 1), i);
    }
  }

  lemma {:induction false} RunSizes(f: Frame, lo: seq<nat>, n: nat, slice: Slice)
    requires FrameInv(f, lo) && slice in Run(f, n)
    ensures slice.pool < POOLS && 1 <= slice.jobs <= SLICE_MAX_JOBS
    ensures lo[slice.pool] <= slice.jobs <= lo[slice.pool] + 1
    decreases n
  {
    ServedKeepsInv(f, lo);
    if slice != NextSlice(f) {
      RunSizes(Served(f), lo, n - 1, slice);
    }
  }

  lemma FreshFrameInv(w: seq<nat>, total: nat) returns (lo: seq<nat>)
    requires |w| == POOLS && total == Sum(w) && total > 0
    ensures FrameInv(FreshFrame(w, total), lo)
  {
    var f := FreshFrame(w, total);
    lo := seq(POOLS, i requires 0 <= i < POOLS => if f.chunks[i] == 0 then 0 else f.jobs[i] / f.chunks[i]);
    forall i | 0 <= i < POOLS ensures Balanced(f.jobs[i], f.chunks[i], lo[i]) {
      FreshBalance(f.jobs[i]);
    }
  }

  lemma FreshBalance(quota: nat)
    ensures var chunks := CeilDiv(quota, SLICE_MAX_JOBS);
            Balanced(quota, chunks, if chunks == 0 then 0 else quota / chunks)
  {
    var chunks := CeilDiv(quota, SLICE_MAX_JOBS);
    if chunks > 0 {
      FloorTimes(quota, chunks);
    }
  }

  lemma FewestChunks(quota: nat)
    ensures quota <= SLICE_MAX_JOBS * CeilDiv(quota, SLICE_MAX_JOBS) < quota + SLICE_MAX_JOBS
  {
  }

  /** Frame delivery: from a fresh frame the scheduler hands each pool exactly its quota, 80
      jobs in all, in slices of 1 to 12 whose sizes within a pool differ by at most one, and in no more
      slices than that takes. */
  lemma FrameDelivery(w: seq<nat>, total: nat)
    requires |w| == POOLS && total == Sum(w) && total > 0
    ensures var f := FreshFrame(w, total);
            var slices := Run(f, Sum(f.chunks));
            && |slices| == Sum(f.chunks)
            && (forall i | 0 <= i < POOLS :: Quotas(w, total)[i] <= SLICE_MAX_JOBS * f.chunks[i]
                                             < Quotas(w, total)[i] + SLICE_MAX_JOBS)
            && (forall i | 0 <= i < POOLS :: Delivered(slices, i) == Quotas(w, total)[i])
            && Delivered(slices, 0) + Delivered(slices, 1) + Delivered(slices, 2) == FRAME_JOBS
            && (forall slice | slice in slices :: slice.pool < POOLS && 1 <= slice.jobs <= SLICE_MAX_JOBS)
            && (forall a, b | a in slices && b in slices && a.pool == b.pool :: a.jobs <= b.jobs + 1)
  {
    var lo := FreshFrameInv(w, total);
    var f := FreshFrame(w, total);
    var slices := Run(f, Sum(f.chunks));
    forall i: nat | i < POOLS
      ensures f.jobs[i] <= SLICE_MAX_JOBS * f.chunks[i] < f.jobs[i] + SLICE_MAX_JOBS
    {
      FewestChunks(f.jobs[i]);
    }
    forall i: nat | i < POOLS ensures Delivered(slices, i) == f.jobs[i] {
      RunDelivers(f, lo, Sum(f.chunks), i);
    }
    RunDelivers(f, lo, Sum(f.chunks), 0);
    QuotasFillTheFrame(w, total);
    forall slice | slice in slices
      ensures slice.pool < POOLS && 1 <= slice.jobs <= SLICE_MAX_JOBS
      ensures lo[slice.pool] <= slice.jobs <= lo[slice.pool] + 1
    {
      RunSizes(f, lo, Sum(f.chunks), slice);
    }
  }
}

/** The scheduler's arrays, updated in place by the functions of main/stratum_minimal.c. */
module PoolSliceScheduler {
  import opened FrameQuotas
  import opened FrameDelivery
  import opened FrameFairness

  class PoolSliceScheduler {
    const jobs: array<nat>
    const chunks: array<nat>
    const weight: array<nat>
    const smooth: array<int>

    ghost predicate Valid()
      reads this
    {
      && jobs.Length == chunks.Length == weight.Length == smooth.Length == POOLS
      && jobs != chunks && jobs != weight && chunks != weight
    }

    ghost function View(): (f: Frame)
      requires Valid()
      reads this, jobs, chunks, weight, smooth
      ensures Shape(f)
    {
      Frame(jobs[..], chunks[..], weight[..], smooth[..])
    }

    constructor ()
      ensures Valid() && View() == Frame([0, 0, 0], [0, 0, 0], [0, 0, 0], [0, 0, 0])
      ensures fresh(jobs) && fresh(chunks) && fresh(weight) && fresh(smooth)
    {
      jobs := new nat[POOLS](_ => 0);
      chunks := new nat[POOLS](_ => 0);
      weight := new nat[POOLS](_ => 0);
      smooth := new int[POOLS](_ => 0);
    }

    /** `memset(scheduler, 0, sizeof(*scheduler))`. */
    method Reset()
      requires Valid()
      modifies jobs, chunks, weight, smooth
      ensures View() == Frame([0, 0, 0], [0, 0, 0], [0, 0, 0], [0, 0, 0])
    {
      for i := 0 to POOLS
        invariant forall k | 0 <= k < i :: jobs[k] == 0 && chunks[k] == 0 && weight[k] == 0 && smooth[k] == 0
      {
        jobs[i], chunks[i], weight[i], smooth[i] := 0, 0, 0, 0;
      }
    }

    method SumJobs() returns (total: nat)
      requires Valid()
      ensures total == Sum(jobs[..])
    {
      total := jobs[0] + jobs[1] + jobs[2];
    }

    /** The loop that picks the largest remainder. */
    method LargestRemainder(w: seq<nat>, rem: array<nat>) returns (best: nat)
      requires |w| == rem.Length == POOLS
      ensures best == Largest(w, rem[..], POOLS)
    {
      best := POOLS;
      for i := 0 to POOLS
        invariant if best == POOLS then Largest(w, rem[..], i) == i else best == Largest(w, rem[..], i) < i
      {
        if w[i] != 0 && (best == POOLS || rem[i] > rem[best]) {
          best := i;
        }
      }
    }

    /** `pool_slice_scheduler_build_frame` with the total its caller computes. */
    method BuildFrame(w: seq<nat>, total: nat)
      requires Valid() && |w| == POOLS && total == Sum(w) && total > 0
      modifies jobs, chunks, weight, smooth
      ensures View() == FreshFrame(w, total)
    {
      Reset();
      QuotasFillTheFrame(w, total);
      var rem := RoundDown(w, total);
      GiveMinimum(w);
      FillRemaining(w, rem);
      CutChunks();
    }

    method RoundDown(w: seq<nat>, total: nat) returns (rem: array<nat>)
      requires Valid() && |w| == POOLS && total > 0
      requires jobs[..] == [0, 0, 0]
      modifies jobs, weight
      ensures jobs[..] == Floors(w, total) && weight[..] == w
      ensures fresh(rem) && rem[..] == Remainders(w, total)
    {
      rem := new nat[POOLS](_ => 0);
      for i := 0 to POOLS
        invariant forall k | 0 <= k < i :: jobs[k] == Floors(w, total)[k] && weight[k] == w[k]
        invariant forall k | 0 <= k < i :: rem[k] == Remainders(w, total)[k]
        invariant forall k | i <= k < POOLS :: jobs[k] == 0 && rem[k] == 0
      {
        weight[i] := w[i];
        if w[i] != 0 {
          jobs[i] := w[i] * FRAME_JOBS / total;
          rem[i] := w[i] * FRAME_JOBS % total;
        }
      }
    }

    method GiveMinimum(w: seq<nat>)
      requires Valid() && |w| == POOLS
      modifies jobs
      ensures jobs[..] == MinOne(w, old(jobs[..]), 0)
    {
      var given := SumJobs();
      for i := 0 to POOLS
        invariant given == Sum(jobs[..])
        invariant MinOne(w, old(jobs[..]), 0) == MinOne(w, jobs[..], i)
      {
        if given < FRAME_JOBS && w[i] != 0 && jobs[i] == 0 {
          jobs[i] := 1;
          given := given + 1;
        }
      }
    }

    method FillRemaining(w: seq<nat>, rem: array<nat>)
      requires Valid() && |w| == rem.Length == POOLS && Sum(w) > 0
      requires rem != jobs && Sum(jobs[..]) <= FRAME_JOBS
      modifies jobs, rem
      ensures jobs[..] == FillUp(w, old(jobs[..]), old(rem[..]))
    {
      hide FillUp, Largest;
      var given := SumJobs();
      SomePool(w, rem[..]);
      while given < FRAME_JOBS
        invariant given == Sum(jobs[..]) <= FRAME_JOBS
        invariant FillUp(w, old(jobs[..]), old(rem[..])) == FillUp(w, jobs[..], rem[..])
        invariant Largest(w, rem[..], POOLS) < POOLS
      {
        FillStep(w, jobs[..], rem[..]);
        var best := LargestRemainder(w, rem);
        ghost var jobs0, rem0 := jobs[..], rem[..];
        jobs[best] := jobs[best] + 1;
        rem[best] := 0;
        given := given + 1;
        assert jobs[..] == jobs0[best := jobs0[best] + 1] && rem[..] == rem0[best := 0];
        SomePool(w, rem[..]);
      }
      FillStep(w, jobs[..], rem[..]);
    }

    method CutChunks()
      requires Valid() && chunks[..] == [0, 0, 0]
      modifies chunks
      ensures forall k | 0 <= k < POOLS :: chunks[k] == CeilDiv(jobs[k], SLICE_MAX_JOBS)
    {
      for i := 0 to POOLS
        invariant forall k | 0 <= k < i :: chunks[k] == CeilDiv(jobs[k], SLICE_MAX_JOBS)
        invariant forall k | i <= k < POOLS :: chunks[k] == 0
      {
        if jobs[i] != 0 {
          chunks[i] := (jobs[i] + SLICE_MAX_JOBS - 1) / SLICE_MAX_JOBS;
        }
      }
    }

    /** `pool_slice_scheduler_frame_matches`. */
    method FrameMatches(w: seq<nat>) returns (same: bool)
      requires Valid() && |w| == POOLS
      ensures same <==> weight[..] == w
    {
      for i := 0 to POOLS
        invariant forall k | 0 <= k < i :: weight[k] == w[k]
      {
        if weight[i] != w[i] {
          return false;
        }
      }
      return true;
    }

    /** `pool_slice_scheduler_has_work`. */
    method FrameHasWork() returns (pending: bool)
      requires Valid()
      ensures pending <==> HasWork(View())
    {
      for i := 0 to POOLS
        invariant forall k | 0 <= k < i :: !Pending(View(), k)
      {
        if jobs[i] > 0 && chunks[i] > 0 {
          return true;
        }
      }
      return false;
    }

    /** Credits every ready pool with work left and finds the one to serve. */
    method Credited(ready: seq<bool>, ghost f: Frame) returns (best: nat, totalChunks: nat)
      requires Valid() && |ready| == POOLS && f == View()
      requires forall i | 0 <= i < POOLS && Pending(f, i) :: ready[i]
      modifies smooth
      ensures best == Pick(f)
      ensures totalChunks == PendingChunks(f, POOLS)
      ensures smooth[..] == [Credit(f, 0), Credit(f, 1), Credit(f, 2)]
    {
      hide IsPick, Pick, Pending, Credit, PendingChunks;
      best, totalChunks := POOLS, 0;
      NothingPicked(f);
      for i := 0 to POOLS
        invariant IsPick(f, best, i) && (best == POOLS || best < i)
        invariant totalChunks == PendingChunks(f, i)
        invariant forall k | 0 <= k < i :: smooth[k] == Credit(f, k)
        invariant forall k | i <= k < POOLS :: smooth[k] == f.smooth[k]
      {
        PickNext(f, best, i);
        assert jobs[i] == f.jobs[i] && chunks[i] == f.chunks[i] && (Pending(f, i) ==> ready[i]);
        if ready[i] && jobs[i] != 0 && chunks[i] != 0 {
          smooth[i] := smooth[i] + chunks[i];
          totalChunks := totalChunks + chunks[i];
          if best == POOLS || smooth[i] > smooth[best] {
            best := i;
          }
        }
      }
      OnePick(f, best);
    }

    /** The frame the next slice is taken from. */
    ghost function CurrentFrame(w: seq<nat>, total: nat): (f: Frame)
      requires Valid() && |w| == POOLS && total > 0
      reads this, jobs, chunks, weight, smooth
      ensures Shape(f)
    {
      if weight[..] == w && HasWork(View()) then View() else FreshFrame(w, total)
    }

    /** A pool with jobs in the frame has weight in it. */
    ghost predicate WeightsCover()
      requires Valid()
      reads this, jobs, weight
    {
      forall i | 0 <= i < POOLS && jobs[i] > 0 :: weight[i] > 0
    }

    /** Rebuilds the frame when the weights changed or it is used up. */
    method Refresh(w: seq<nat>, total: nat, ghost lo: seq<nat>) returns (ghost lo': seq<nat>)
      requires Valid() && |w| == POOLS && total == Sum(w) && total > 0
      requires WeightsCover() && FrameInv(View(), lo)
      modifies jobs, chunks, weight, smooth
      ensures View() == old(CurrentFrame(w, total)) && weight[..] == w && WeightsCover()
      ensures FrameInv(View(), lo') && HasWork(View())
    {
      lo' := lo;
      var same := FrameMatches(w);
      var pending := FrameHasWork();
      if !same || !pending {
        BuildFrame(w, total);
        lo' := FreshFrameInv(w, total);
        QuotasFillTheFrame(w, total);
        PendingIff(View(), lo');
      }
    }

    /** Hands out the slice of the pool with the largest credit. */
    method Serve(ready: seq<bool>, ghost f: Frame, ghost lo: seq<nat>) returns (pool: nat, slice: nat)
      requires Valid() && |ready| == POOLS && f == View() && FrameInv(f, lo) && HasWork(f)
      requires forall i | 0 <= i < POOLS && Pending(f, i) :: ready[i]
      modifies jobs, chunks, smooth
      ensures Slice(pool, slice) == NextSlice(f) && View() == Served(f) && Charges(f, View(), pool, slice)
    {
      hide FrameInv, HasWork, Charges;
      ServedKeepsInv(f, lo);
      ServedCharges(f, lo);
      var totalChunks;
      pool, totalChunks := Credited(ready, f);
      smooth[pool] := smooth[pool] - totalChunks;
      slice := (jobs[pool] + chunks[pool] - 1) / chunks[pool];
      assert 1 <= slice <= SLICE_MAX_JOBS;  // neither correction of the source applies
      jobs[pool] := if jobs[pool] > slice then jobs[pool] - slice else 0;
      chunks[pool] := chunks[pool] - 1;
      assert jobs[..] == Served(f).jobs && chunks[..] == Served(f).chunks;
      assert smooth[..] == Served(f).smooth;
    }

    /** `pool_slice_scheduler_next`, given what `ready_pool_weights` computed. */
    method Next(ready: seq<bool>, w: seq<nat>, total: nat, ghost lo: seq<nat>)
      returns (ok: bool, pool: nat, slice: nat)
      requires Valid() && |ready| == |w| == POOLS && total == Sum(w)
      requires forall i | 0 <= i < POOLS && w[i] > 0 :: ready[i]
      requires WeightsCover() && FrameInv(View(), lo)
      modifies jobs, chunks, weight, smooth
      ensures ok <==> total > 0
      ensures !ok ==> View() == Frame([0, 0, 0], [0, 0, 0], [0, 0, 0], [0, 0, 0])
      ensures ok ==> var f := old(CurrentFrame(w, total));
                     HasWork(f) && Slice(pool, slice) == NextSlice(f) && View() == Served(f)
      ensures ok ==> pool < POOLS && w[pool] > 0 && 1 <= slice <= SLICE_MAX_JOBS
      ensures ok ==> Charges(old(CurrentFrame(w, total)), View(), pool, slice)
      ensures WeightsCover() && exists lo' :: FrameInv(View(), lo')
    {
      hide Served, NextSlice, HasWork, Charges;
      ok, pool, slice := total > 0, 0, 0;
      if total == 0 {
        Reset();
        assert FrameInv(View(), [0, 0, 0]);
        return;
      }
      ghost var lo' := Refresh(w, total, lo);
      ghost var f := View();
      ServedKeepsInv(f, lo');
      pool, slice := Serve(ready, f, lo');
      assert FrameInv(View(), lo');
    }
  }

  lemma NothingPicked(f: Frame)
    requires Shape(f)
    ensures IsPick(f, POOLS, 0) && PendingChunks(f, 0) == 0
  {
  }

  lemma SomePool(w: seq<nat>, rem: seq<nat>)
    requires |w| == |rem| == POOLS && Sum(w) > 0
    ensures Largest(w, rem, POOLS) < POOLS
  {
  }
}

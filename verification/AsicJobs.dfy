/** Ownership of the fixed pool of jobs (main/mining.c) by the ASIC job table
    (main/bm1370.c, main/bitaxe_hw.c).

    A job is an index into the pool. One job task builds at most one job at a time; sends,
    frees and clears may come in any order. */
module AsicJobs {
  import opened Basics

  const JOB_POOL_SIZE: nat := 32
  const JOB_SLOTS: nat := 128
  const ID_STEP: nat := 24

  // ----- the ownership invariant, on values

  /** Occupied slots sit at multiples of 8 and no two share a job. */
  ghost predicate SlotsOwn(active: seq<Option<nat>>) {
    && |active| == JOB_SLOTS
    && (forall k | 0 <= k < JOB_SLOTS && active[k].Some? :: k % 8 == 0 && active[k].value < JOB_POOL_SIZE)
    && (forall j, k | 0 <= j < k < JOB_SLOTS && active[j].Some? :: active[j] != active[k])
  }

  /** A pool entry is in use exactly when one slot holds it or it is being built, never both. */
  ghost predicate Owned(used: seq<bool>, active: seq<Option<nat>>, building: Option<nat>) {
    && SlotsOwn(active)
    && |used| == JOB_POOL_SIZE
    && (building.Some? ==> building.value < JOB_POOL_SIZE && building !in active)
    && (forall i: nat | i < JOB_POOL_SIZE :: used[i] <==> Some(i) in active || building == Some(i))
  }

  ghost function InUse(used: seq<bool>): set<nat> {
    set i: nat | i < |used| && used[i]
  }

  /** The jobs held by the first `n` slots whose number is a multiple of 8. */
  ghost function HeldBy(active: seq<Option<nat>>, n: nat): set<nat>
    requires |active| == JOB_SLOTS && n <= 16
  {
    if n == 0 then {}
    else
      HeldBy(active, n - 1) +
      if active[8 * (n - 1)].Some? then {active[8 * (n - 1)].value} else {}
  }

  lemma {:induction false} HeldByCounts(active: seq<Option<nat>>, n: nat)
    requires |active| == JOB_SLOTS && n <= 16
    ensures |HeldBy(active, n)| <= n
    ensures forall k | 0 <= k < n && active[8 * k].Some? :: active[8 * k].value in HeldBy(active, n)
  {
    if n == 0 {
    } else {
      HeldByCounts(active, n - 1);
    }
  }

  lemma HeldByAll(active: seq<Option<nat>>, i: nat)
    requires SlotsOwn(active) && Some(i) in active
    ensures i in HeldBy(active, 16)
  {
    var k :| 0 <= k < |active| && active[k] == Some(i);
    HeldByCounts(active, 16);
    assert k == 8 * (k / 8);
    assert active[8 * (k / 8)].Some?;
  }

  /** Sixteen slots and one job under construction bound the pool entries in use. */
  lemma AtMostSeventeenInUse(used: seq<bool>, active: seq<Option<nat>>, building: Option<nat>)
    requires Owned(used, active, building)
    ensures |InUse(used)| <= 16 + (if building.Some? then 1 else 0)
  {
    var extra: set<nat> := if building.Some? then {building.value} else {};
    forall i | i in InUse(used) ensures i in HeldBy(active, 16) + extra {
      if Some(i) in active { HeldByAll(active, i); }
    }
    HeldByCounts(active, 16);
    SubsetSize(InUse(used), HeldBy(active, 16) + extra);
  }

  lemma {:induction false} SubsetSize(a: set<nat>, b: set<nat>)
    requires a <= b
    ensures |a| <= |b|
  {
    if a == {} {
    } else {
      var x :| x in a;
      SubsetSize(a - {x}, b - {x});
    }
  }

  lemma {:induction false} AllInUseSize(used: seq<bool>, n: nat)
    requires n <= |used| && forall i | 0 <= i < n :: used[i]
    ensures |set i: nat | i < n && used[i]| == n
  {
    if n == 0 {
    } else {
      AllInUseSize(used, n - 1);
      assert (set i: nat | i < n && used[i]) == (set i: nat | i < n - 1 && used[i]) + {n - 1};
    }
  }

  /** With no job under construction a pool entry is free, so `alloc_bm_job` never falls
      back to the heap. */
  lemma FreeEntryExists(used: seq<bool>, active: seq<Option<nat>>)
    requires Owned(used, active, None)
    ensures exists i: nat :: i < JOB_POOL_SIZE && !used[i]
  {
    if forall i: nat | i < JOB_POOL_SIZE :: used[i] {
      AllInUseSize(used, JOB_POOL_SIZE);
      assert InUse(used) == set i: nat | i < JOB_POOL_SIZE && used[i];
      AtMostSeventeenInUse(used, active, None);
    }
  }

  lemma OwnedParts(used: seq<bool>, active: seq<Option<nat>>, building: Option<nat>)
    requires Owned(used, active, building)
    ensures |used| == JOB_POOL_SIZE && |active| == JOB_SLOTS
    ensures building.Some? ==> building.value < JOB_POOL_SIZE && used[building.value] && building !in active
    ensures forall k | 0 <= k < JOB_SLOTS && active[k].Some? :: active[k].value < JOB_POOL_SIZE && used[active[k].value]
  {
    forall k | 0 <= k < JOB_SLOTS && active[k].Some? ensures used[active[k].value] {
      assert active[k] in active;
    }
  }

  /** Putting the job under construction into a slot and freeing the job that was there keeps every
      entry owned once. */
  lemma SentIsOwned(used: seq<bool>, active: seq<Option<nat>>, job: nat, id: nat,
                    used': seq<bool>, active': seq<Option<nat>>)
    requires Owned(used, active, Some(job)) && id < JOB_SLOTS && id % 8 == 0
    requires active' == active[id := Some(job)]
    requires used' == if active[id].Some? then used[active[id].value := false] else used
    ensures Owned(used', active', None)
  {
    assert forall k | 0 <= k < JOB_SLOTS :: active'[k] == if k == id then Some(job) else active[k];
    SentSlotsOwn(active, job, id, active');
    forall i: nat | i < JOB_POOL_SIZE ensures used'[i] <==> Some(i) in active' {
      if Some(i) in active {
        var k :| 0 <= k < JOB_SLOTS && active[k] == Some(i);
        if k != id { assert active'[k] == Some(i); }
      }
      assert active'[id] == Some(job);
    }
  }

  lemma SentSlotsOwn(active: seq<Option<nat>>, job: nat, id: nat, active': seq<Option<nat>>)
    requires SlotsOwn(active) && id < JOB_SLOTS && id % 8 == 0 && job < JOB_POOL_SIZE && Some(job) !in active
    requires active' == active[id := Some(job)]
    ensures SlotsOwn(active')
  {
  }

  // ----- job-id rotation

  function NextId(id: nat): nat {
    (id + ID_STEP) % JOB_SLOTS
  }

  lemma NextIdIsSlot(id: nat)
    requires id % 8 == 0
    ensures NextId(id) < JOB_SLOTS && NextId(id) % 8 == 0
  {
  }

  /** The slots of sends so far, the first one after slot 0. */
  ghost predicate Rotated(sent: seq<nat>, id: nat) {
    id == NthSlot(0, |sent|) && forall n | 0 <= n < |sent| :: sent[n] == NthSlot(0, n + 1)
  }

  lemma RotatesOn(sent: seq<nat>, id: nat)
    requires Rotated(sent, id)
    ensures Rotated(sent + [NextId(id)], NextId(id))
  {
    NthSlotStep(0, |sent|);
    hide NthSlot;
  }

  /** The slot of the n-th send after one that used `start`. */
  function NthSlot(start: nat, n: nat): nat {
    (start + ID_STEP * n) % JOB_SLOTS
  }

  lemma NthSlotStep(start: nat, n: nat)
    ensures NthSlot(start, n + 1) == NextId(NthSlot(start, n))
  {
    RemainderFirst(start + 24 * n, 24);
  }

  lemma RemainderFirst(a: nat, b: nat)
    ensures (a + b) % 128 == (a % 128 + b) % 128
  {
  }

  lemma SameSlotIff(a: nat, b: nat)
    requires a <= b
    ensures a % 128 == b % 128 <==> (b - a) % 128 == 0
  {
  }

  lemma RotationPeriod(d: nat)
    ensures (24 * d) % 128 == 0 <==> d % 16 == 0
  {
    var q, r := d / 16, d % 16;
    assert 24 * d == 24 * r + 128 * (3 * q);
    MultiplesDrop(24 * r, 3 * q);
  }

  lemma MultiplesDrop(a: nat, k: nat)
    ensures (a + 128 * k) % 128 == a % 128
  {
  }

  lemma SameSlotEverySixteen(start: nat, i: nat, j: nat)
    requires i < j
    ensures NthSlot(start, i) == NthSlot(start, j) <==> (j - i) % 16 == 0
  {
    var a, b := start + ID_STEP * i, start + ID_STEP * j;
    assert b - a == 24 * (j - i);
    SameSlotIff(a, b);
    RotationPeriod(j - i);
  }

  /** Of all sends of a table, any 16 in a row used 16 different slots, and the 17th reused the
      first. */
  lemma SendsRotate(sent: seq<nat>, id: nat, i: nat, j: nat)
    requires Rotated(sent, id) && i < j < |sent|
    ensures sent[i] == sent[j] <==> (j - i) % 16 == 0
  {
    hide NthSlot;
    SameSlotEverySixteen(0, i + 1, j + 1);
  }

  // ----- the id a result carries back

  /** The byte a small core reports for a job. */
  function RawJobId(id: bv8, core: bv8): bv8 {
    (id << 1) | core
  }

  /** `BM1370_process_work`. */
  function DecodedJobId(raw: bv8): bv8 {
    (raw & 0xf0) >> 1
  }

  /** Any result decodes to a slot the table can occupy, and a result for a job that was
      sent decodes to that job's slot whichever of the 16 small cores found it. */
  lemma JobIdRoundTrip(id: bv8, core: bv8, raw: bv8)
    ensures id & 0x87 == 0 && core & 0xf0 == 0 ==> DecodedJobId(RawJobId(id, core)) == id
    ensures DecodedJobId(raw) & 0x87 == 0
  {
  }

  // ----- the tables, updated in place

  class JobTable {
    const used: array<bool>
    const poolOf: array<nat>
    const active: array<Option<nat>>
    const valid: array<bool>
    var id: nat
    ghost var building: Option<nat>
    ghost var sent: seq<nat>  // the slots of all sends so far

    ghost predicate Valid()
      reads this, used, poolOf, active, valid
    {
      && used != valid && poolOf.Length == JOB_POOL_SIZE
      && id < JOB_SLOTS && id % 8 == 0
      && Rotated(sent, id)
      && Owned(used[..], active[..], building)
      && valid.Length == JOB_SLOTS
      && forall k | 0 <= k < JOB_SLOTS :: valid[k] <==> active[k].Some?
    }

    constructor ()
      ensures Valid() && building == None && id == 0 && sent == []
      ensures forall k | 0 <= k < JOB_SLOTS :: active[k] == None
      ensures fresh(used) && fresh(poolOf) && fresh(active) && fresh(valid)
    {
      used := new bool[JOB_POOL_SIZE](_ => false);
      poolOf := new nat[JOB_POOL_SIZE](_ => 0);
      active := new Option<nat>[JOB_SLOTS](_ => None);
      valid := new bool[JOB_SLOTS](_ => false);
      id, building, sent := 0, None, [];
    }

    /** `alloc_bm_job`: the first free entry, or nothing, which sends the firmware to the
        heap. That never happens here. */
    method AllocJob(p: nat) returns (job: Option<nat>)
      requires Valid() && building.None?
      modifies this`building, used, poolOf
      ensures Valid() && job.Some? && building == job
      ensures !old(used[job.value]) && forall i | 0 <= i < job.value :: old(used[i])
      ensures used[..] == old(used[..])[job.value := true]
      ensures poolOf[job.value] == p
      ensures forall i | 0 <= i < JOB_POOL_SIZE && i != job.value :: poolOf[i] == old(poolOf[i])
    {
      FreeEntryExists(used[..], active[..]);
      job := None;
      for i := 0 to JOB_POOL_SIZE
        invariant forall k | 0 <= k < i :: used[k]
      {
        if !used[i] {
          job := Some(i);
          break;
        }
      }
      used[job.value] := true;
      poolOf[job.value] := p;
      building := job;
    }

    /** `free_bm_job` of a job that was never sent. */
    method FreeUnsent(job: nat)
      requires Valid() && building == Some(job)
      modifies this`building, used, poolOf
      ensures Valid() && building.None?
      ensures used[..] == old(used[..])[job := false]
    {
      FreeJob(job);
      building := None;
    }

    /** `free_bm_job`. */
    method FreeJob(job: nat)
      requires job < used.Length && used.Length == poolOf.Length && used[job]
      modifies used, poolOf
      ensures used[..] == old(used[..])[job := false]
      ensures poolOf[..] == old(poolOf[..])[job := 0]
    {
      poolOf[job] := 0;
      used[job] := false;
    }

    /** `BM1370_send_work`: the job takes the next id's slot, and whatever was there is
        freed once. */
    method SendWork(job: nat)
      requires Valid() && building == Some(job)
      modifies this, used, poolOf, active, valid
      ensures Valid() && building.None?
      ensures id == NextId(old(id)) && sent == old(sent) + [id]
      ensures active[..] == old(active[..])[id := Some(job)] && poolOf[job] == old(poolOf[job])
      ensures var evicted := old(active[..])[id];
              used[..] == if evicted.Some? then old(used[..])[evicted.value := false] else old(used[..])
    {
      hide Rotated, Owned, NextId;
      NextIdIsSlot(id);
      RotatesOn(sent, id);
      id := NextId(id);
      sent := sent + [id];
      OwnedParts(used[..], active[..], building);
      if active[id].Some? {
        FreeJob(active[id].value);
      }
      active[id] := Some(job);
      valid[id] := true;
      building := None;
      SentIsOwned(old(used[..]), old(active[..]), job, id, used[..], active[..]);
    }

    /** Empties slot `k`, freeing its job. */
    method ClearSlot(k: nat)
      requires Valid() && k < JOB_SLOTS
      modifies used, poolOf, active, valid
      ensures Valid()
      ensures active[..] == old(active[..])[k := None]
      ensures used[..] == if old(active[k]).Some? then old(used[..])[old(active[k]).value := false]
                          else old(used[..])
      ensures forall i | 0 <= i < JOB_POOL_SIZE && Some(i) != old(active[k]) :: poolOf[i] == old(poolOf[i])
    {
      ghost var before := active[..];
      valid[k] := false;
      if active[k].Some? {
        FreeJob(active[k].value);
        active[k] := None;
      }
      forall i: nat | i < JOB_POOL_SIZE
        ensures used[i] <==> Some(i) in active[..] || building == Some(i)
      {
        if Some(i) in before {
          var j :| 0 <= j < JOB_SLOTS && before[j] == Some(i);
          if j != k { assert active[..][j] == Some(i); }
        }
      }
    }

    /** `bitaxe_gamma602_clear_jobs`. */
    method ClearJobs()
      requires Valid()
      modifies used, poolOf, active, valid
      ensures Valid()
      ensures forall k | 0 <= k < JOB_SLOTS :: active[k] == None
      ensures forall i: nat | i < JOB_POOL_SIZE :: used[i] <==> building == Some(i)
    {
      for i := 0 to JOB_SLOTS
        invariant Valid()
        invariant forall k | 0 <= k < i :: active[k] == None
      {
        ClearSlot(i);
      }
    }

    /** `bitaxe_gamma602_clear_pool_jobs`. */
    method ClearPoolJobs(p: nat)
      requires Valid()
      modifies used, poolOf, active, valid
      ensures Valid()
      ensures forall k | 0 <= k < JOB_SLOTS ::
                active[k] == if old(active[k]).Some? && old(poolOf[active[k].value]) == p then None
                             else old(active[k])
    {
      for i := 0 to JOB_SLOTS
        invariant Valid()
        invariant forall k | 0 <= k < i ::
                    active[k] == if old(active[k]).Some? && old(poolOf[active[k].value]) == p then None
                                 else old(active[k])
        invariant forall k | i <= k < JOB_SLOTS :: active[k] == old(active[k])
        invariant forall k | i <= k < JOB_SLOTS && active[k].Some? ::
                    poolOf[active[k].value] == old(poolOf[active[k].value])
      {
        if active[i].Some? && poolOf[active[i].value] == p {
          ClearSlot(i);
        }
      }
    }
  }
}

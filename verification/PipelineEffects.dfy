/** What one undisturbed call of each pipeline function amounts to, and that each is a run
    of the machine. */
module PipelineEffects {
  import opened Basics
  import opened PipelineMachine
  import opened PipelineSafety
  import opened PipelineLimits

  // ----- rotating the queue

  /** The items of `queue` marked to stay. */
  ghost function Kept(queue: seq<Message>, keep: seq<bool>): seq<Message>
    requires |keep| == |queue|
  {
    if queue == [] then []
    else
      var n := |queue| - 1;
      Kept(queue[..n], keep[..n]) + if keep[n] then [queue[n]] else []
  }

  lemma {:induction false} KeptShorter(queue: seq<Message>, keep: seq<bool>)
    requires |keep| == |queue|
    ensures |Kept(queue, keep)| <= |queue|
  {
    if queue == [] {
    } else {
      KeptShorter(queue[..|queue| - 1], keep[..|queue| - 1]);
    }
  }

  ghost function Rotated(s: State, keep: seq<bool>): (t: State)
    requires Shape(s) && |keep| <= |s.queue|
    ensures Shape(t)
  {
    s.(queue := s.queue[|keep|..] + Kept(s.queue[..|keep|], keep))
  }

  lemma RotateOne(s0: State, s: State, keep: bool) returns (t: State)
    requires Leads(s0, s) && s.limbo == [] && 0 < |s.queue| <= QUEUE_DEPTH
    ensures Leads(s0, t)
    ensures t == s.(queue := s.queue[1..] + if keep then [s.queue[0]] else [])
  {
    var s1 := LeadsOneMore(s0, s, Drain(Take));
    t := LeadsOneMore(s0, s1, if keep then Drain(Return(0)) else Drain(Drop(0)));
    assert t.limbo == [];
  }

  lemma RotatedSnoc(s: State, keep: seq<bool>, last: bool)
    requires Shape(s) && |keep| < |s.queue|
    ensures var u := Rotated(s, keep);
            && 0 < |u.queue| <= |s.queue|
            && Rotated(s, keep + [last])
               == u.(queue := u.queue[1..] + if last then [u.queue[0]] else [])
  {
    var n := |keep|;
    KeptShorter(s.queue[..n], keep);
    assert s.queue[..n + 1][..n] == s.queue[..n] && (keep + [last])[..n] == keep;
    var u := Rotated(s, keep);
    assert u.queue[1..] == s.queue[n + 1..] + Kept(s.queue[..n], keep);
  }

  /** Rotating items is a run of single takes, drops and returns. */
  lemma {:induction false} RotationLeads(s0: State, s: State, keep: seq<bool>)
    requires Leads(s0, s) && s.limbo == [] && |keep| <= |s.queue| <= QUEUE_DEPTH
    ensures Leads(s0, Rotated(s, keep))
  {
    if keep == [] {
      assert Rotated(s, keep) == s;
    } else {
      var n := |keep| - 1;
      RotationLeads(s0, s, keep[..n]);
      assert keep[..n] + [keep[n]] == keep;
      RotatedSnoc(s, keep[..n], keep[n]);
      var t := RotateOne(s0, Rotated(s, keep[..n]), keep[n]);
    }
  }

  /** `drain_work_queue_for_pool` drops `reset_all` markers and everything of pool `p`. */
  predicate DroppedFor(m: Message, p: nat) {
    match m
    case Item(w) => w.pool == p
    case ResetAllMarker => true
    case ResetPoolMarker(q) => q == p
  }

  function OtherPools(queue: seq<Message>, p: nat): (r: seq<Message>)
    ensures |r| <= |queue|
  {
    if queue == [] then []
    else
      var n := |queue| - 1;
      OtherPools(queue[..n], p) + if DroppedFor(queue[n], p) then [] else [queue[n]]
  }

  lemma {:induction false} OtherPoolsHas(queue: seq<Message>, p: nat, m: Message)
    ensures m in OtherPools(queue, p) <==> m in queue && !DroppedFor(m, p)
  {
    if queue == [] {
    } else {
      var n := |queue| - 1;
      OtherPoolsHas(queue[..n], p, m);
      assert queue == queue[..n] + [queue[n]];
    }
  }

  /** `drop_one_queued_work_for_pool` drops the oldest entry of pool `p` that is not a
      `reset_all` marker. */
  predicate GivesWayFor(m: Message, p: nat) {
    DroppedFor(m, p) && !m.ResetAllMarker?
  }

  function WithoutOldest(queue: seq<Message>, p: nat): (r: seq<Message>)
    ensures |r| <= |queue| <= |r| + 1
  {
    if queue == [] then []
    else
      var n := |queue| - 1;
      var rest := WithoutOldest(queue[..n], p);
      if |rest| == n && GivesWayFor(queue[n], p) then rest else rest + [queue[n]]
  }

  /** Exactly the first entry that gives way is gone. */
  lemma {:induction false} OldestIsFirst(queue: seq<Message>, p: nat, i: nat)
    requires i <= |queue| && forall k | 0 <= k < i :: !GivesWayFor(queue[k], p)
    ensures i == |queue| ==> WithoutOldest(queue, p) == queue
    ensures i < |queue| && GivesWayFor(queue[i], p) ==> WithoutOldest(queue, p) == Without(queue, i)
  {
    if queue != [] {
      var n := |queue| - 1;
      var front, m := queue[..n], queue[n];
      assert forall k | 0 <= k < n :: front[k] == queue[k];
      WithoutOldestStep(queue, p);
      assert front + [m] == queue;
      hide WithoutOldest, GivesWayFor, Without;
      if i < n {
        OldestIsFirst(front, p, i);
        WithoutSnoc(front, m, i);
      } else {
        OldestIsFirst(front, p, n);
        if i == n {
          WithoutLast(front, m);
        }
      }
    }
  }

  lemma WithoutSnoc(queue: seq<Message>, m: Message, i: nat)
    requires i < |queue|
    ensures Without(queue + [m], i) == Without(queue, i) + [m] && |Without(queue, i)| == |queue| - 1
  {
  }

  lemma WithoutLast(queue: seq<Message>, m: Message)
    ensures Without(queue + [m], |queue|) == queue
  {
  }

  lemma WithoutOldestStep(queue: seq<Message>, p: nat)
    requires queue != []
    ensures var n := |queue| - 1;
            var rest, m := WithoutOldest(queue[..n], p), queue[n];
            WithoutOldest(queue, p) == if |rest| == n && GivesWayFor(m, p) then rest else rest + [m]
  {
    hide GivesWayFor;
  }

  // ----- resets

  ghost function Queued(queue: seq<Message>, m: Message): seq<Message> {
    if |queue| < QUEUE_DEPTH then queue + [m] else queue
  }

  ghost function ReceiverAfter(s: State, owner: Option<nat>): seq<Receiver>
    requires Shape(s) && (owner.Some? ==> owner.value < POOLS)
  {
    if owner.Some? then s.rx[owner.value := AfterReset(s.rx[owner.value])] else s.rx
  }

  ghost predicate CanReset(s: State, owner: Option<nat>) {
    && Shape(s) && s.lock.Free? && s.limbo == [] && |s.queue| <= QUEUE_DEPTH
    && (owner.Some? ==> owner.value < POOLS && s.rx[owner.value].NeedsReset?)
  }

  /** `reset_work_state(true)`. */
  ghost function ResetAllEffect(s: State, owner: Option<nat>): (t: State)
    requires CanReset(s, owner)
    ensures Shape(t)
  {
    s.(epoch := s.epoch + 1, poolEpoch := EachPlus(s.poolEpoch, 1), queue := [ResetAllMarker],
       slots := NoWork(SLOTS), rx := ReceiverAfter(s, owner))
  }

  /** `reset_pool_work_state(p, true, true)`. */
  ghost function ResetPoolEffect(s: State, p: nat, owed: bool): (t: State)
    requires p < POOLS && CanReset(s, if owed then Some(p) else None)
    ensures Shape(t)
  {
    s.(poolEpoch := s.poolEpoch[p := s.poolEpoch[p] + 1],
       queue := Queued(OtherPools(s.queue, p), ResetPoolMarker(p)),
       slots := ClearPool(s.slots, p),
       rx := ReceiverAfter(s, if owed then Some(p) else None))
  }

  /** `reset_pool_or_single_work_state`. */
  ghost function ResetEffect(s: State, p: nat, single: bool, owed: bool): (t: State)
    requires p < POOLS && CanReset(s, if owed then Some(p) else None)
    ensures Shape(t)
  {
    if p == 0 && single then ResetAllEffect(s, if owed then Some(p) else None)
    else ResetPoolEffect(s, p, owed)
  }

  lemma {:induction false} NothingKept(queue: seq<Message>)
    ensures Kept(queue, seq(|queue|, _ => false)) == []
  {
    if queue == [] {
    } else {
      var n := |queue| - 1;
      NothingKept(queue[..n]);
      assert seq(|queue|, _ => false)[..n] == seq(n, _ => false);
    }
  }

  function ForOthers(queue: seq<Message>, p: nat): (keep: seq<bool>)
    ensures |keep| == |queue|
  {
    seq(|queue|, i requires 0 <= i < |queue| => !DroppedFor(queue[i], p))
  }

  lemma {:induction false} OthersKept(queue: seq<Message>, p: nat)
    ensures Kept(queue, ForOthers(queue, p)) == OtherPools(queue, p)
  {
    if queue == [] {
    } else {
      var n := |queue| - 1;
      OthersKept(queue[..n], p);
      assert ForOthers(queue, p)[..n] == ForOthers(queue[..n], p);
    }
  }

  lemma DrainedLeads(s0: State, s: State)
    requires Leads(s0, s) && s.limbo == [] && |s.queue| <= QUEUE_DEPTH
    ensures Leads(s0, s.(queue := []))
  {
    var keep := seq(|s.queue|, _ => false);
    RotationLeads(s0, s, keep);
    NothingKept(s.queue);
    assert s.queue[..|keep|] == s.queue;
    assert Rotated(s, keep).queue == [];
  }

  lemma PoolDrainedLeads(s0: State, s: State, p: nat)
    requires Leads(s0, s) && s.limbo == [] && |s.queue| <= QUEUE_DEPTH
    ensures Leads(s0, s.(queue := OtherPools(s.queue, p)))
  {
    var keep := ForOthers(s.queue, p);
    RotationLeads(s0, s, keep);
    OthersKept(s.queue, p);
    assert s.queue[..|keep|] == s.queue;
    assert Rotated(s, keep).queue == OtherPools(s.queue, p);
  }

  /** Clear, marker and release, the end of both resets. */
  lemma MarkAndRelease(s0: State, s: State) returns (t: State)
    requires Leads(s0, s) && s.lock.Cleared? && |s.queue| <= QUEUE_DEPTH
    ensures Leads(s0, t)
    ensures t == s.(lock := Free, queue := Queued(s.queue, Marker(s.lock.scope)))
  {
    var s1 := s;
    if |s.queue| < QUEUE_DEPTH {
      s1 := LeadsOneMore(s0, s, Reset(QueueMarker));
    }
    t := LeadsOneMore(s0, s1, Reset(Release));
  }

  lemma BeginAllLeads(s0: State, s: State, owner: Option<nat>) returns (t: State)
    requires Leads(s0, s) && CanReset(s, owner)
    ensures Leads(s0, t)
    ensures t == s.(lock := BumpingAll(0), epoch := s.epoch + 1, rx := ReceiverAfter(s, owner))
  {
    t := LeadsOneMore(s0, s, Reset(BeginAll(owner)));
  }

  lemma BeginPoolLeads(s0: State, s: State, p: nat, owed: bool) returns (t: State)
    requires Leads(s0, s) && p < POOLS && CanReset(s, if owed then Some(p) else None)
    ensures Leads(s0, t)
    ensures t == s.(lock := PoolBumped(p), poolEpoch := s.poolEpoch[p := s.poolEpoch[p] + 1],
                    rx := ReceiverAfter(s, if owed then Some(p) else None))
  {
    t := LeadsOneMore(s0, s, Reset(BeginPool(p, owed)));
  }

  lemma ClearTableLeads(s0: State, s: State) returns (t: State)
    requires Leads(s0, s) && s.lock == BumpingAll(POOLS) && |s.queue| <= QUEUE_DEPTH
    ensures Leads(s0, t)
    ensures t == s.(lock := Free, slots := NoWork(SLOTS), queue := Queued(s.queue, ResetAllMarker))
  {
    var s1 := LeadsOneMore(s0, s, Reset(ClearTable));
    t := MarkAndRelease(s0, s1);
  }

  lemma ClearPoolLeads(s0: State, s: State, p: nat) returns (t: State)
    requires Leads(s0, s) && s.lock == PoolBumped(p) && |s.queue| <= QUEUE_DEPTH
    ensures Leads(s0, t)
    ensures t == s.(lock := Free, slots := ClearPool(s.slots, p),
                    queue := Queued(s.queue, ResetPoolMarker(p)))
  {
    var s1 := LeadsOneMore(s0, s, Reset(ClearPoolSlots));
    t := MarkAndRelease(s0, s1);
  }

  lemma ResetAllLeads(s0: State, s: State, owner: Option<nat>)
    requires Leads(s0, s) && CanReset(s, owner)
    ensures Leads(s0, ResetAllEffect(s, owner))
  {
    var s1 := BeginAllLeads(s0, s, owner);
    var s2 := BumpAll(s0, s1);
    DrainedLeads(s0, s2);
    var t := ClearTableLeads(s0, s2.(queue := []));
    assert t == ResetAllEffect(s, owner);
  }

  lemma ResetPoolLeads(s0: State, s: State, p: nat, owed: bool)
    requires Leads(s0, s) && p < POOLS && CanReset(s, if owed then Some(p) else None)
    ensures Leads(s0, ResetPoolEffect(s, p, owed))
  {
    var s1 := BeginPoolLeads(s0, s, p, owed);
    PoolDrainedLeads(s0, s1, p);
    OthersKept(s.queue, p);
    var t := ClearPoolLeads(s0, s1.(queue := OtherPools(s.queue, p)), p);
    assert t == ResetPoolEffect(s, p, owed);
  }

  lemma ResetLeads(s0: State, s: State, p: nat, single: bool, owed: bool)
    requires Leads(s0, s) && p < POOLS && CanReset(s, if owed then Some(p) else None)
    ensures Leads(s0, ResetEffect(s, p, single, owed))
  {
    if p == 0 && single {
      ResetAllLeads(s0, s, if owed then Some(p) else None);
    } else {
      ResetPoolLeads(s0, s, p, owed);
    }
  }

  // ----- undisturbed calls between handler boundaries

  /** No task is inside a handler, a send, a rotation or the reset lock. */
  ghost predicate AtRest(s: State) {
    && Shape(s) && s.lock.Free? && s.limbo == [] && s.incoming.None? && s.building.None?
    && |s.queue| <= QUEUE_DEPTH
    && forall p | 0 <= p < |s.rx| :: s.rx[p].Idle?
  }

  function OldestMask(queue: seq<Message>, p: nat): (keep: seq<bool>)
    ensures |keep| == |queue|
  {
    if queue == [] then []
    else
      var n := |queue| - 1;
      OldestMask(queue[..n], p) + [|WithoutOldest(queue[..n], p)| < n || !GivesWayFor(queue[n], p)]
  }

  lemma {:induction false} OldestDropped(queue: seq<Message>, p: nat)
    ensures Kept(queue, OldestMask(queue, p)) == WithoutOldest(queue, p)
  {
    if queue == [] {
    } else {
      var n := |queue| - 1;
      OldestDropped(queue[..n], p);
      assert OldestMask(queue, p)[..n] == OldestMask(queue[..n], p);
    }
  }

  lemma RoomMadeLeads(s0: State, s: State, p: nat)
    requires Leads(s0, s) && s.limbo == [] && |s.queue| <= QUEUE_DEPTH
    ensures Leads(s0, s.(queue := WithoutOldest(s.queue, p)))
  {
    var keep := OldestMask(s.queue, p);
    RotationLeads(s0, s, keep);
    OldestDropped(s.queue, p);
    assert s.queue[..|keep|] == s.queue;
    assert Rotated(s, keep).queue == WithoutOldest(s.queue, p);
  }

  /** The queue after `enqueue_work` has sent `w`, making room first when it is full. */
  function Enqueued(queue: seq<Message>, p: nat, w: Work): seq<Message> {
    var room := if |queue| < QUEUE_DEPTH then queue else WithoutOldest(queue, p);
    if |room| < QUEUE_DEPTH then room + [Item(w)] else room
  }

  ghost function EnqueueEffect(s: State, p: nat, suggested: real, asicMask: bv32): (t: State)
    requires AtRest(s) && p < POOLS
    ensures AtRest(t)
  {
    var w := CaptureWork(p, s.epoch, s.poolEpoch[p], s.sessions[p], suggested, asicMask);
    if w.None? then s else s.(queue := Enqueued(s.queue, p, w.value))
  }

  lemma CaptureLeads(s0: State, s: State, p: nat, suggested: real, asicMask: bv32) returns (t: State)
    requires Leads(s0, s) && p < POOLS && s.rx[p].Idle?
    ensures Leads(s0, t)
    ensures var w := CaptureWork(p, s.epoch, s.poolEpoch[p], s.sessions[p], suggested, asicMask);
            t == s.(rx := s.rx[p := if w.Some? then Built(w.value) else Idle])
  {
    var s1 := LeadsOneMore(s0, s, Enqueue(p, CaptureEpoch));
    var s2 := LeadsOneMore(s0, s1, Enqueue(p, CapturePoolEpoch));
    t := LeadsOneMore(s0, s2, Enqueue(p, ReadSession(suggested, asicMask)));
    assert s2.rx[p] == SawEpochs(s.epoch, s.poolEpoch[p]);
    assert t.rx == s.rx[p := t.rx[p]];
  }

  lemma PushLeads(s0: State, s: State, p: nat) returns (t: State)
    requires Leads(s0, s) && p < POOLS && s.rx[p].Built?
    ensures Leads(s0, t)
    ensures t == s.(rx := s.rx[p := Idle],
                    queue := if |s.queue| < QUEUE_DEPTH then s.queue + [Item(s.rx[p].work)] else s.queue)
  {
    t := LeadsOneMore(s0, s, Enqueue(p, if |s.queue| < QUEUE_DEPTH then Push else Abandon));
  }

  lemma EnqueueLeads(s0: State, s: State, p: nat, suggested: real, asicMask: bv32)
    requires Leads(s0, s) && AtRest(s) && p < POOLS
    ensures Leads(s0, EnqueueEffect(s, p, suggested, asicMask))
  {
    var s1 := CaptureLeads(s0, s, p, suggested, asicMask);
    assert s.rx[p := Idle] == s.rx;
    if s1.rx[p].Built? {
      var s2 := s1;
      if |s.queue| == QUEUE_DEPTH {
        RoomMadeLeads(s0, s1, p);
        s2 := s1.(queue := WithoutOldest(s.queue, p));
      }
      var t := PushLeads(s0, s2, p);
      assert t.rx == s.rx;
      assert t == EnqueueEffect(s, p, suggested, asicMask);
    }
  }

  /** `job_task_sync_epoch`. */
  ghost function Synced(s: State): (t: State)
    requires Shape(s)
    ensures Shape(t)
  {
    if Word(s.epoch) != Word(s.current) then s.(held := NoWork(POOLS), current := s.epoch) else s
  }

  /** One message through the job task: receive, sync, apply. */
  ghost function TakeEffect(s: State): (t: State)
    requires AtRest(s) && s.queue != []
    ensures AtRest(t)
  {
    Applied(Synced(s.(queue := s.queue[1..])), s.queue[0])
  }

  lemma SyncLeads(s0: State, s: State)
    requires Leads(s0, s) && s.building.None?
    ensures Leads(s0, Synced(s))
  {
    if Word(s.epoch) != Word(s.current) {
      var t := LeadsOneMore(s0, s, Job(Sync));
    }
  }

  lemma ApplyLeads(s0: State, s: State, m: Message)
    requires Leads(s0, s.(incoming := Some(m))) && s.building.None? && s.incoming.None?
    ensures Leads(s0, Applied(s, m))
  {
    var t := LeadsOneMore(s0, s.(incoming := Some(m)), Job(ApplyIncoming));
    assert Applied(s.(incoming := Some(m)), m).(incoming := None) == Applied(s, m);
  }

  lemma TakeLeads(s0: State, s: State)
    requires Leads(s0, s) && AtRest(s) && s.queue != []
    ensures Leads(s0, TakeEffect(s))
  {
    var s1 := LeadsOneMore(s0, s, Job(Receive));
    SyncLeads(s0, s1);
    var s2 := s.(queue := s.queue[1..]);
    assert s1 == s2.(incoming := Some(s.queue[0]));
    assert Synced(s1) == Synced(s2).(incoming := Some(s.queue[0]));
    ApplyLeads(s0, Synced(s2), s.queue[0]);
  }

  ghost function SendEffect(s: State, p: nat, slot: nat): (t: State)
    requires AtRest(s) && p < POOLS && slot < SLOTS
    ensures AtRest(t)
  {
    if s.held[p].Some? && SendAllowed(s, s.held[p].value)
    then s.(slots := s.slots[slot := s.held[p]]) else s
  }

  lemma SendLeads(s0: State, s: State, p: nat, slot: nat)
    requires Leads(s0, s) && AtRest(s) && p < POOLS && slot < SLOTS
    ensures Leads(s0, SendEffect(s, p, slot))
  {
    if s.held[p].Some? && SendAllowed(s, s.held[p].value) {
      var t := SendHeld(s0, s, p, slot);
    }
  }

  ghost function PauseEffect(s: State): (t: State)
    requires AtRest(s)
    ensures AtRest(t)
  {
    s.(paused := true, quiet := true, slots := NoWork(SLOTS))
  }

  ghost function ResumeEffect(s: State): (t: State)
    requires AtRest(s)
    ensures AtRest(t)
  {
    s.(paused := false, quiet := false, slots := NoWork(SLOTS))
  }

  lemma PauseLeads(s0: State, s: State)
    requires Leads(s0, s) && AtRest(s)
    ensures Leads(s0, PauseEffect(s)) && Leads(s0, ResumeEffect(s))
  {
    var s1 := LeadsOneMore(s0, s, Pause(PauseStore));
    var s2 := LeadsOneMore(s0, s1, Pause(PauseClear));
    assert s2 == PauseEffect(s);
    var r1 := LeadsOneMore(s0, s, Pause(ResumeClear));
    var r2 := LeadsOneMore(s0, r1, Pause(ResumeStore));
    assert r2 == ResumeEffect(s);
  }

  // ----- handlers

  /** A session change followed by the reset it owes. */
  ghost function ChangeAndReset(s: State, p: nat, session: Session, single: bool): (t: State)
    requires AtRest(s) && p < POOLS
    ensures AtRest(t)
  {
    ResetEffect(s.(sessions := s.sessions[p := session], rx := s.rx[p := NeedsReset(false)]),
                p, single, true)
  }

  /** `update_version_mask`; an unusable mask only closes the connection, with a reset. */
  ghost function VersionMaskEffect(s: State, p: nat, mask: bv32, single: bool): (t: State)
    requires AtRest(s) && p < POOLS
    ensures AtRest(t)
  {
    var usable := UsableVersionMask(mask);
    if usable == 0 then ResetEffect(s, p, single, false)
    else if usable == s.sessions[p].versionMask then s
    else ChangeAndReset(s, p, s.sessions[p].(versionMask := usable), single)
  }

  ghost function DifficultyEffect(s: State, p: nat, difficulty: real, single: bool): (t: State)
    requires AtRest(s) && p < POOLS
    ensures AtRest(t)
  {
    if Raises(s.sessions[p], difficulty)
    then ChangeAndReset(s, p, s.sessions[p].(difficulty := difficulty), single)
    else WithDifficulty(s, p, difficulty)
  }

  ghost function SetExtranonceEffect(s: State, p: nat, x: Extranonce, single: bool): (t: State)
    requires AtRest(s) && p < POOLS
    ensures AtRest(t)
  {
    WithExtranonce(ResetEffect(s, p, single, false), p, x)
  }

  ghost function DisconnectEffect(s: State, p: nat, clearWork: bool, single: bool): (t: State)
    requires AtRest(s) && p < POOLS
    ensures AtRest(t)
  {
    var session := s.sessions[p].(connected := false, setupReady := false);
    if clearWork || s.sessions[p].connected then ChangeAndReset(s, p, session, single)
    else s.(sessions := s.sessions[p := session])
  }

  lemma ChangeAndResetLeads(s0: State, s: State, p: nat, session: Session, single: bool)
    requires AtRest(s) && p < POOLS
    requires Leads(s0, s.(sessions := s.sessions[p := session], rx := s.rx[p := NeedsReset(false)]))
    ensures Leads(s0, ChangeAndReset(s, p, session, single))
  {
    ResetLeads(s0, s.(sessions := s.sessions[p := session], rx := s.rx[p := NeedsReset(false)]),
               p, single, true);
  }

  lemma VersionMaskLeads(s0: State, s: State, p: nat, mask: bv32, single: bool)
    requires Leads(s0, s) && AtRest(s) && p < POOLS && s.sessions[p].connected
    ensures Leads(s0, VersionMaskEffect(s, p, mask, single))
  {
    var usable := UsableVersionMask(mask);
    if usable == 0 {
      ResetLeads(s0, s, p, single, false);
    } else if usable != s.sessions[p].versionMask {
      var s1 := LeadsOneMore(s0, s, Setup(p, SetVersionMask(mask)));
      ChangeAndResetLeads(s0, s, p, s.sessions[p].(versionMask := usable), single);
    }
  }

  lemma DifficultyLeads(s0: State, s: State, p: nat, difficulty: real, single: bool)
    requires Leads(s0, s) && AtRest(s) && p < POOLS && s.sessions[p].connected
    ensures Leads(s0, DifficultyEffect(s, p, difficulty, single))
  {
    var s1 := LeadsOneMore(s0, s, Setup(p, SetDifficulty(difficulty)));
    if Raises(s.sessions[p], difficulty) {
      ChangeAndResetLeads(s0, s, p, s.sessions[p].(difficulty := difficulty), single);
    }
  }

  lemma FinishExtranonceLeads(s0: State, s: State, p: nat, x: Extranonce)
    requires AtRest(s) && p < POOLS && s.sessions[p].connected
    requires Leads(s0, s.(rx := s.rx[p := ExtranoncePending]))
    ensures Leads(s0, WithExtranonce(s, p, x))
  {
    var s1 := s.(rx := s.rx[p := ExtranoncePending]);
    var t := LeadsOneMore(s0, s1, Setup(p, FinishSetExtranonce(x)));
    assert s1.rx[p := Idle] == s.rx;
    assert t == WithExtranonce(s, p, x);
  }

  /** The owed reset of `handle_set_extranonce` differs from any other only in what the
      receiver does next. */
  lemma OwedExtranonceReset(s: State, p: nat, single: bool)
    requires AtRest(s) && p < POOLS
    ensures var t := ResetEffect(s, p, single, false);
            ResetEffect(s.(rx := s.rx[p := NeedsReset(true)]), p, single, true)
            == t.(rx := t.rx[p := ExtranoncePending])
  {
    assert s.rx[p := NeedsReset(true)][p := ExtranoncePending] == s.rx[p := ExtranoncePending];
  }

  lemma SetExtranonceLeads(s0: State, s: State, p: nat, x: Extranonce, single: bool)
    requires Leads(s0, s) && AtRest(s) && p < POOLS && s.sessions[p].connected
    ensures Leads(s0, SetExtranonceEffect(s, p, x, single))
  {
    var s1 := LeadsOneMore(s0, s, Setup(p, BeginSetExtranonce));
    ResetLeads(s0, s1, p, single, true);
    OwedExtranonceReset(s, p, single);
    FinishExtranonceLeads(s0, ResetEffect(s, p, single, false), p, x);
  }

  lemma DisconnectLeads(s0: State, s: State, p: nat, clearWork: bool, single: bool)
    requires Leads(s0, s) && AtRest(s) && p < POOLS
    ensures Leads(s0, DisconnectEffect(s, p, clearWork, single))
  {
    var s1 := LeadsOneMore(s0, s, Setup(p, Disconnect(clearWork)));
    var session := s.sessions[p].(connected := false, setupReady := false);
    if clearWork || s.sessions[p].connected {
      ChangeAndResetLeads(s0, s, p, session, single);
    }
  }

  // ----- what the handlers leave behind

  /** Once any of the resetting handlers returns, nothing captured for the pool before it
      is live, so what follows starts from a clean pool. */
  lemma ResetRetiresPool(s: State, p: nat, single: bool, w: Work)
    requires Inv(s) && AtRest(s) && p < POOLS && Holds(ResetEffect(s, p, single, false), w) && w.pool == p
    ensures !Live(ResetEffect(s, p, single, false), w)
    ensures Holds(s, w)
  {
    LeadsToSelf(s);
    var t := ResetEffect(s, p, single, false);
    if Item(w) in OtherPools(s.queue, p) { OtherPoolsHas(s.queue, p, Item(w)); }
    assert forall k | 0 <= k < |t.slots| :: t.slots[k] == None || t.slots[k] == s.slots[k];
    assert Holds(s, w) && WorkOk(s, w);
  }
}

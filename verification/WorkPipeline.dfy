/** The functions of main/stratum_minimal.c that move work, on the fields they update in
    place. Each carries the machine state `model` along and, called while nothing else is in
    progress, ends in a state some run of `PipelineMachine` leads to, with its whole effect
    stated. How such calls interleave is the machine's affair: its actions are the points
    between which other tasks can run, and `PipelineSafety` speaks of every order of them. */
module WorkPipeline {
  import opened Basics
  import opened PipelineMachine
  import opened PipelineSafety
  import opened PipelineLimits
  import opened PipelineEffects
  import opened PipelineDelivery

  class WorkPipeline {
    ghost var model: State
    var epoch: nat
    const poolEpoch: array<nat>
    var queue: seq<Message>
    var current: nat
    const held: array<Option<Work>>
    const slots: array<Option<Work>>
    var paused: bool
    const sessions: array<Session>
    const disabled: array<bool>  // runtime_disabled; it keeps work out and is no part of the machine

    /** The fields are the shared state of `s`. */
    ghost predicate Shows(s: State)
      reads this, poolEpoch, held, slots, sessions
    {
      && s.epoch == epoch && s.poolEpoch == poolEpoch[..] && s.queue == queue
      && s.current == current && s.held == held[..] && s.slots == slots[..]
      && s.paused == paused && s.sessions == sessions[..]
    }

    ghost predicate Valid()
      reads this, poolEpoch, held, slots, sessions
    {
      AtRest(model) && held != slots && Shows(model) && disabled.Length == POOLS
    }

    constructor (defaultMask: bv32, difficulties: seq<real>)
      requires UsableVersionMask(defaultMask) != 0 && |difficulties| == POOLS
      ensures Valid() && Initial(model)
      ensures fresh(poolEpoch) && fresh(held) && fresh(slots) && fresh(sessions) && fresh(disabled)
      ensures forall p | 0 <= p < POOLS :: !disabled[p]
    {
      epoch, queue, current, paused := 0, [], 0, false;
      poolEpoch := new nat[POOLS](_ => 0);
      held := new Option<Work>[POOLS](_ => None);
      disabled := new bool[POOLS](_ => false);
      slots := new Option<Work>[SLOTS](_ => None);
      var mask := UsableVersionMask(defaultMask);
      sessions := new Session[POOLS](i requires 0 <= i < POOLS =>
        Session(false, false, Extranonce([], 0), difficulties[i], mask));
      new;
      model := State(Free, 0, poolEpoch[..], [], [], None, 0, held[..], None, slots[..], false, false,
                     sessions[..], [Idle, Idle, Idle]);
      assert held[..] == NoWork(POOLS) && slots[..] == NoWork(SLOTS);
    }

    // ----- clearing the table and the queue

    /** `bitaxe_gamma602_clear_jobs` on the table of jobs. */
    method ClearSlots()
      modifies slots
      ensures slots[..] == NoWork(slots.Length)
    {
      for i := 0 to slots.Length
        invariant forall k | 0 <= k < i :: slots[k] == None
      {
        slots[i] := None;
      }
    }

    /** `bitaxe_gamma602_clear_pool_jobs` on the table of jobs. */
    method ClearSlotsOf(p: nat)
      modifies slots
      ensures slots[..] == ClearPool(old(slots[..]), p)
    {
      for i := 0 to slots.Length
        invariant forall k | 0 <= k < i :: slots[k] == ClearPool(old(slots[..]), p)[k]
        invariant forall k | i <= k < slots.Length :: slots[k] == old(slots[k])
      {
        if slots[i].Some? && slots[i].value.pool == p {
          slots[i] := None;
        }
      }
    }

    /** `drain_work_queue`. */
    method DrainWorkQueue()
      modifies this`queue
      ensures queue == []
    {
      while queue != []
        decreases |queue|
      {
        queue := queue[1..];
      }
    }

    /** `drain_work_queue_for_pool`: one full rotation of the queue. */
    method DrainWorkQueueFor(p: nat)
      modifies this`queue
      ensures queue == OtherPools(old(queue), p)
      ensures forall who :: Of(queue, who) == if who == None || who == Some(p) then [] else Of(old(queue), who)
    {
      ghost var q0 := queue;
      var count := |queue|;
      for i := 0 to count
        invariant queue == q0[i..] + OtherPools(q0[..i], p)
      {
        assert q0[..i + 1][..i] == q0[..i];
        TurnsFront(q0, i, OtherPools(q0[..i], p));
        var m := queue[0];
        queue := queue[1..];
        if !DroppedFor(m, p) {
          queue := queue + [m];
        }
      }
      assert q0[..count] == q0;
      hide OtherPools, Of;
      forall who { DrainSparesOthers(q0, p, who); }
    }

    /** `drop_one_queued_work_for_pool`: a full rotation that loses the pool's oldest item. */
    method DropOneQueuedFor(p: nat) returns (dropped: bool)
      modifies this`queue
      ensures queue == WithoutOldest(old(queue), p)
      ensures dropped <==> |queue| < |old(queue)|
      ensures dropped <==> Of(old(queue), Some(p)) != []
      ensures forall who :: who != Some(p) ==> Of(queue, who) == Of(old(queue), who)
      ensures dropped ==> Of(queue, Some(p)) == Of(old(queue), Some(p))[1..]
    {
      ghost var q0 := queue;
      dropped := false;
      var count := |queue|;
      for i := 0 to count
        invariant queue == q0[i..] + WithoutOldest(q0[..i], p)
        invariant dropped <==> |WithoutOldest(q0[..i], p)| < i
      {
        assert q0[..i + 1][..i] == q0[..i];
        TurnsFront(q0, i, WithoutOldest(q0[..i], p));
        var m := queue[0];
        queue := queue[1..];
        if !dropped && GivesWayFor(m, p) {
          dropped := true;
        } else {
          queue := queue + [m];
        }
      }
      assert q0[..count] == q0;
      hide WithoutOldest, Of;
      forall who { RoomSparesOthers(q0, p, who); }
    }

    // ----- resets

    method SendMarker(m: Message)
      modifies this`queue
      ensures queue == Queued(old(queue), m)
    {
      if |queue| < QUEUE_DEPTH {
        queue := queue + [m];
      }
    }

    method BumpEveryPool()
      requires poolEpoch.Length == POOLS
      modifies poolEpoch
      ensures poolEpoch[..] == EachPlus(old(poolEpoch[..]), 1)
    {
      for i := 0 to POOLS
        invariant forall k | 0 <= k < POOLS :: poolEpoch[k] == old(poolEpoch[k]) + if k < i then 1 else 0
      {
        poolEpoch[i] := poolEpoch[i] + 1;
      }
    }

    /** The field updates of `reset_work_state`. */
    method ResetAllFields()
      requires poolEpoch.Length == POOLS
      modifies this`epoch, this`queue, poolEpoch, slots
      ensures epoch == old(epoch) + 1 && poolEpoch[..] == EachPlus(old(poolEpoch[..]), 1)
      ensures queue == [ResetAllMarker] && slots[..] == NoWork(slots.Length)
    {
      epoch := epoch + 1;
      BumpEveryPool();
      DrainWorkQueue();
      ClearSlots();
      SendMarker(ResetAllMarker);
    }

    /** The field updates of `reset_pool_work_state`. */
    method ResetPoolFields(p: nat)
      requires p < poolEpoch.Length
      modifies this`queue, poolEpoch, slots
      ensures poolEpoch[..] == old(poolEpoch[..])[p := old(poolEpoch[p]) + 1]
      ensures queue == Queued(OtherPools(old(queue), p), ResetPoolMarker(p))
      ensures slots[..] == ClearPool(old(slots[..]), p)
    {
      poolEpoch[p] := poolEpoch[p] + 1;
      DrainWorkQueueFor(p);
      ClearSlotsOf(p);
      SendMarker(ResetPoolMarker(p));
    }

    /** The field updates of `reset_pool_or_single_work_state`, whatever the receiver is
        in the middle of. */
    method ResetFields(p: nat, single: bool, ghost s: State, ghost owed: bool)
      requires p < POOLS && CanReset(s, if owed then Some(p) else None) && Shows(s) && held != slots
      modifies this`epoch, this`queue, poolEpoch, slots
      ensures Shows(ResetEffect(s, p, single, owed))
    {
      if p == 0 && single {
        ResetAllFields();
      } else {
        ResetPoolFields(p);
      }
    }

    /** `reset_work_state(true)`, as called for a reconnect. */
    method ResetWorkState()
      requires Valid()
      modifies this, poolEpoch, slots
      ensures Valid() && Leads(old(model), model)
      ensures model == ResetAllEffect(old(model), None)
    {
      LeadsToSelf(model);
      ResetAllLeads(model, model, None);
      ResetAllFields();
      model := ResetAllEffect(model, None);
    }

    /** `reset_pool_or_single_work_state(p, true, true)`. */
    method ResetPoolOrSingle(p: nat, single: bool)
      requires Valid() && p < POOLS
      modifies this, poolEpoch, slots
      ensures Valid() && Leads(old(model), model)
      ensures model == ResetEffect(old(model), p, single, false)
      ensures !(p == 0 && single) ==> SparesOthers(old(queue), queue, p)
    {
      hide SparesOthers, Of, ResetPoolEffect, ResetAllEffect, CanReset, Leads;
      RestCanReset(model);
      ResetStaysAtRest(model, p, single);
      if !(p == 0 && single) {
        ResetSparesQueue(model, p, false);
      }
      LeadsToSelf(model);
      ResetLeads(model, model, p, single, false);
      ResetFields(p, single, model, false);
      model := ResetEffect(model, p, single, false);
    }

    // ----- work from the receiver to the ASIC

    /** `enqueue_work`; `memory` says whether the extranonce can be copied. */
    method EnqueueWork(p: nat, suggested: real, asicMask: bv32, memory: bool)
      requires Valid() && p < POOLS
      modifies this
      ensures Valid() && Leads(old(model), model)
      ensures model == if disabled[p] || (!memory && sessions[p].extranonce.prefix != []) then old(model)
                       else EnqueueEffect(old(model), p, suggested, asicMask)
      ensures SparesOthers(old(queue), queue, p)
    {
      hide SparesOthers, Of, Enqueued, CaptureWork, Leads;
      SparesAll(queue, p);
      LeadsToSelf(model);
      if disabled[p] {
        return;
      }
      var work := CaptureWork(p, epoch, poolEpoch[p], sessions[p], suggested, asicMask);
      if !memory && sessions[p].extranonce.prefix != [] {
        return;
      }
      EnqueueLeads(model, model, p, suggested, asicMask);
      EnqueueSparesOthers(model, p, suggested, asicMask);
      if work.Some? {
        PushWork(p, work.value);
      }
      model := EnqueueEffect(model, p, suggested, asicMask);
    }

    /** The end of `enqueue_work`: the oldest entry gives way when the queue is full. */
    method PushWork(p: nat, work: Work)
      modifies this`queue
      ensures queue == Enqueued(old(queue), p, work)
    {
      if |queue| >= QUEUE_DEPTH {
        var _ := DropOneQueuedFor(p);
      }
      if |queue| < QUEUE_DEPTH {
        queue := queue + [Item(work)];
      }
    }

    method ClearHeld()
      modifies held
      ensures held[..] == NoWork(held.Length)
    {
      for i := 0 to held.Length
        invariant forall k | 0 <= k < i :: held[k] == None
      {
        held[i] := None;
      }
    }

    /** One turn of the job task's receive loop: receive, `job_task_sync_epoch`,
        `job_task_apply_incoming`. */
    method TakeIncoming()
      requires Valid() && queue != []
      modifies this, held
      ensures Valid() && Leads(old(model), model)
      ensures model == TakeEffect(old(model))
    {
      LeadsToSelf(model);
      TakeLeads(model, model);
      var incoming := queue[0];
      queue := queue[1..];
      if Word(epoch) != Word(current) {
        ClearHeld();
        current := epoch;
      }
      match incoming {
        case ResetAllMarker =>
          ClearHeld();
          current := epoch;
        case ResetPoolMarker(p) =>
          if p < POOLS {
            held[p] := None;
          }
        case Item(w) =>
          if w.pool < POOLS && Word(w.epoch) == Word(current) &&
             Word(w.poolEpoch) == Word(poolEpoch[w.pool]) {
            held[w.pool] := Some(w);
          }
      }
      model := TakeEffect(model);
    }

    /** `generate_and_send_work` with `work_epoch` the job task's own epoch; `built` says whether
        chip, mask, difficulty, size and memory allow the job. */
    method GenerateAndSendWork(p: nat, slot: nat, built: bool) returns (sent: bool)
      requires Valid() && p < POOLS && slot < SLOTS
      modifies this, slots
      ensures Valid() && Leads(old(model), model)
      ensures model == if built then SendEffect(old(model), p, slot) else old(model)
      ensures sent <==> built && model.held[p].Some? && SendAllowed(old(model), model.held[p].value)
      ensures sent ==> slots[slot] == held[p]
    {
      LeadsToSelf(model);
      sent := false;
      if !built {
        return;
      }
      SendLeads(model, model, p, slot);
      if held[p].Some? {
        var job := held[p].value;
        if Word(current) == Word(epoch) && job.pool < POOLS &&
           Word(job.poolEpoch) == Word(poolEpoch[job.pool]) && !paused {
          slots[slot] := Some(job);
          sent := true;
        }
      }
      model := SendEffect(model, p, slot);
    }

    /** `stratum_minimal_pause_work`. */
    method PauseWork()
      requires Valid()
      modifies this, slots
      ensures Valid() && Leads(old(model), model)
      ensures model == PauseEffect(old(model))
    {
      LeadsToSelf(model);
      PauseLeads(model, model);
      paused := true;
      ClearSlots();
      model := PauseEffect(model);
    }

    /** `stratum_minimal_resume_work`. */
    method ResumeWork()
      requires Valid()
      modifies this, slots
      ensures Valid() && Leads(old(model), model)
      ensures model == ResumeEffect(old(model))
    {
      LeadsToSelf(model);
      PauseLeads(model, model);
      ClearSlots();
      paused := false;
      model := ResumeEffect(model);
    }

    // ----- session handlers

    /** `update_version_mask`; an unusable mask disables the pool until it connects again. */
    method UpdateVersionMask(p: nat, mask: bv32, single: bool)
      requires Valid() && p < POOLS && sessions[p].connected
      modifies this, poolEpoch, slots, sessions, disabled
      ensures Valid() && Leads(old(model), model)
      ensures disabled[..] == if UsableVersionMask(mask) == 0 then old(disabled[..])[p := true] else old(disabled[..])
      ensures model == VersionMaskEffect(old(model), p, mask, single)
    {
      LeadsToSelf(model);
      VersionMaskLeads(model, model, p, mask, single);
      var usable := UsableVersionMask(mask);
      ghost var s := model;
      if usable == 0 {
        disabled[p] := true;
        ResetFields(p, single, s, false);
      } else {
        var changed := sessions[p].versionMask != usable;
        if changed {
          s := Changed(p, sessions[p].(versionMask := usable));
          sessions[p] := sessions[p].(versionMask := usable);
          ResetFields(p, single, s, true);
        }
      }
      model := VersionMaskEffect(model, p, mask, single);
    }

    /** The machine state between a session change and the reset it owes. */
    ghost function Changed(p: nat, session: Session): (s: State)
      requires AtRest(model) && p < POOLS
      reads this
      ensures Shape(s)
    {
      model.(sessions := model.sessions[p := session], rx := model.rx[p := NeedsReset(false)])
    }

    /** `set_pool_session_difficulty` and the reset its callers add when it reports a raise. */
    method SetDifficulty(p: nat, difficulty: real, single: bool) returns (raised: bool)
      requires Valid() && p < POOLS && sessions[p].connected
      modifies this, poolEpoch, slots, sessions
      ensures Valid() && Leads(old(model), model)
      ensures model == DifficultyEffect(old(model), p, difficulty, single)
      ensures raised <==> Raises(old(sessions[p]), difficulty)
    {
      LeadsToSelf(model);
      DifficultyLeads(model, model, p, difficulty, single);
      raised := false;
      if difficulty > 0.0 {
        raised := difficulty > sessions[p].difficulty;
        ghost var s := Changed(p, sessions[p].(difficulty := difficulty));
        sessions[p] := sessions[p].(difficulty := difficulty);
        if raised {
          ResetFields(p, single, s, true);
        }
      }
      model := DifficultyEffect(model, p, difficulty, single);
    }

    /** `update_extranonce_values`. */
    method UpdateExtranonce(p: nat, x: Extranonce)
      requires p < sessions.Length
      modifies sessions
      ensures sessions[..] == if UsableExtranonce(x)
                              then old(sessions[..])[p := old(sessions[p]).(extranonce := x, setupReady := true)]
                              else old(sessions[..])
    {
      if UsableExtranonce(x) {
        sessions[p] := sessions[p].(extranonce := x, setupReady := true);
      }
    }

    /** `handle_set_extranonce`. */
    method SetExtranonce(p: nat, x: Extranonce, single: bool)
      requires Valid() && p < POOLS && sessions[p].connected
      modifies this, poolEpoch, slots, sessions
      ensures Valid() && Leads(old(model), model)
      ensures model == SetExtranonceEffect(old(model), p, x, single)
    {
      LeadsToSelf(model);
      SetExtranonceLeads(model, model, p, x, single);
      ResetFields(p, single, model, false);
      UpdateExtranonce(p, x);
      model := SetExtranonceEffect(model, p, x, single);
    }

    /** `handle_subscribe_response`. A reply before the session is ready is a step of the machine;
        a later one keeps live work coherent exactly when it changes nothing or the pool has none. */
    method HandleSubscribeReply(p: nat, x: Extranonce)
      requires Valid() && p < POOLS && sessions[p].connected
      modifies this, sessions
      ensures Valid() && model == WithExtranonce(old(model), p, x)
      ensures !old(sessions[p]).setupReady ==> Leads(old(model), model)
      ensures Inv(old(model)) && UsableExtranonce(x) ==>
                (WorksOk(model) <==>
                  (x == old(sessions[p]).extranonce ||
                   forall w | Holds(old(model), w) && Live(old(model), w) :: w.pool != p))
    {
      LeadsToSelf(model);
      if Inv(model) && UsableExtranonce(x) {
        SubscribeReplyIff(model, p, x);
      }
      ghost var wasReady := sessions[p].setupReady;
      UpdateExtranonce(p, x);
      if !wasReady {
        ghost var t := LeadsOneMore(model, model, Setup(p, Subscribe(x)));
      }
      model := WithExtranonce(model, p, x);
    }

    /** `set_session_connected`. */
    method SetConnected(p: nat)
      requires Valid() && p < POOLS && !sessions[p].connected
      modifies this, sessions, disabled
      ensures Valid() && Leads(old(model), model)
      ensures disabled[..] == old(disabled[..])[p := false]
      ensures sessions[..] == old(sessions[..])[p := old(sessions[p]).(connected := true, setupReady := false)]
      ensures model == old(model).(sessions := sessions[..])
    {
      LeadsToSelf(model);
      sessions[p] := sessions[p].(connected := true, setupReady := false);
      disabled[p] := false;
      model := LeadsOneMore(model, model, Setup(p, Connect));
    }

    /** `set_session_disconnected`. */
    method SetDisconnected(p: nat, clearWork: bool, single: bool)
      requires Valid() && p < POOLS
      modifies this, poolEpoch, slots, sessions
      ensures Valid() && Leads(old(model), model)
      ensures model == DisconnectEffect(old(model), p, clearWork, single)
    {
      LeadsToSelf(model);
      DisconnectLeads(model, model, p, clearWork, single);
      var wasConnected := sessions[p].connected;
      ghost var s := Changed(p, sessions[p].(connected := false, setupReady := false));
      sessions[p] := sessions[p].(connected := false, setupReady := false);
      if clearWork || wasConnected {
        ResetFields(p, single, s, true);
      }
      model := DisconnectEffect(model, p, clearWork, single);
    }
  }

  /** What the `Leads` of a call is for: after it, from a reachable state, every job in the table is
      current and a returned pause has left the table empty. */
  lemma CallsStaySafe(s: State, t: State)
    requires Reachable(s) && Leads(s, t)
    ensures Reachable(t) && Inv(t)
    ensures t.lock.Free? ==> forall k | 0 <= k < |t.slots| && t.slots[k].Some? :: WordLive(t, t.slots[k].value)
    ensures t.quiet ==> t.paused && Empty(t.slots)
  {
    hide Leads, Reachable, Inv, WordLive;
    ReachableLeads(s, t);
    ReachableInv(t);
    if t.lock.Free? {
      forall k | 0 <= k < |t.slots| && t.slots[k].Some? ensures WordLive(t, t.slots[k].value) {
        EpochSafety(t, k);
      }
    }
    if t.quiet {
      PauseSafety(t);
    }
  }

  /** One turn of a rotation: what is taken from the front, and what stays with or without it. */
  lemma TurnsFront(q0: seq<Message>, i: nat, kept: seq<Message>)
    requires i < |q0|
    ensures (q0[i..] + kept)[0] == q0[i] && (q0[i..] + kept)[1..] == q0[i + 1..] + kept
    ensures q0[i + 1..] + kept + [q0[i]] == q0[i + 1..] + (kept + [q0[i]])
  {
  }
}

/** What the pools can count on: a reset or a full queue costs no other pool anything, and a
    notification reaches the ASIC from every state at rest. */
module PipelineDelivery {
  import opened Basics
  import opened PipelineMachine
  import opened PipelineSafety
  import opened PipelineLimits
  import opened PipelineEffects

  /** Whom a message concerns; None for the global marker. */
  function PoolOf(m: Message): Option<nat> {
    match m
    case Item(w) => Some(w.pool)
    case ResetPoolMarker(q) => Some(q)
    case ResetAllMarker => None
  }

  /** The messages that concern `who`, in their order. */
  function Of(queue: seq<Message>, who: Option<nat>): seq<Message> {
    if queue == [] then []
    else
      var n := |queue| - 1;
      Of(queue[..n], who) + if PoolOf(queue[n]) == who then [queue[n]] else []
  }

  /** Every other pool's messages are what they were. */
  ghost predicate SparesOthers(before: seq<Message>, after: seq<Message>, p: nat) {
    forall q: nat | q != p :: Of(after, Some(q)) == Of(before, Some(q))
  }

  lemma SparesAll(queue: seq<Message>, p: nat)
    ensures SparesOthers(queue, queue, p)
  {
  }

  lemma RestCanReset(s: State)
    requires AtRest(s)
    ensures CanReset(s, None)
  {
  }

  lemma ResetStaysAtRest(s: State, p: nat, single: bool)
    requires AtRest(s) && p < POOLS
    ensures AtRest(ResetEffect(s, p, single, false))
  {
  }

  lemma OfSnoc(queue: seq<Message>, m: Message, who: Option<nat>)
    ensures Of(queue + [m], who) == Of(queue, who) + if PoolOf(m) == who then [m] else []
  {
    assert (queue + [m])[..|queue|] == queue;
  }

  lemma {:induction false} OfHas(queue: seq<Message>, who: Option<nat>, m: Message)
    ensures m in Of(queue, who) <==> m in queue && PoolOf(m) == who
  {
    if queue != [] {
      var n := |queue| - 1;
      OfHas(queue[..n], who, m);
      assert queue == queue[..n] + [queue[n]];
    }
  }

  // ----- resets

  lemma DroppedIff(m: Message, p: nat)
    ensures DroppedFor(m, p) <==> PoolOf(m) == None || PoolOf(m) == Some(p)
  {
  }

  /** DRAINING for a pool takes its own messages and the global markers, and nothing of another
      pool: its messages stay, in their order. */
  lemma {:induction false} DrainSparesOthers(queue: seq<Message>, p: nat, who: Option<nat>)
    ensures Of(OtherPools(queue, p), who) == if who == None || who == Some(p) then [] else Of(queue, who)
  {
    if queue != [] {
      var n := |queue| - 1;
      DrainSparesOthers(queue[..n], p, who);
      var kept, m := OtherPools(queue[..n], p), queue[n];
      OfSnoc(kept, m, who);
      assert OtherPools(queue, p) == if DroppedFor(m, p) then kept else kept + [m];
      DroppedIff(m, p);
      hide OtherPools, DroppedFor;
    }
  }

  lemma QueuedOf(queue: seq<Message>, m: Message, who: Option<nat>)
    ensures Of(Queued(queue, m), who) == Of(queue, who) + if PoolOf(m) == who && |queue| < QUEUE_DEPTH then [m] else []
  {
    OfSnoc(queue, m, who);
  }

  /** The queue after a pool's reset. */
  lemma ResetQueue(queue: seq<Message>, p: nat, who: Option<nat>)
    ensures var after := Queued(OtherPools(queue, p), ResetPoolMarker(p));
            && (who.Some? && who != Some(p) ==> Of(after, who) == Of(queue, who))
            && (Of(after, Some(p)) == [ResetPoolMarker(p)]
                || (Of(after, Some(p)) == [] && |after| >= QUEUE_DEPTH))
  {
    var kept := OtherPools(queue, p);
    DrainSparesOthers(queue, p, who);
    DrainSparesOthers(queue, p, Some(p));
    QueuedOf(kept, ResetPoolMarker(p), who);
    QueuedOf(kept, ResetPoolMarker(p), Some(p));
    hide OtherPools, Of;
  }

  /** A POOL'S RESET leaves the other pools' messages in their order, and of its own pool nothing
      but the marker, unless the others fill the queue. */
  lemma ResetSparesQueue(s: State, p: nat, owed: bool)
    requires p < POOLS && CanReset(s, if owed then Some(p) else None)
    ensures var t := ResetPoolEffect(s, p, owed);
            && SparesOthers(s.queue, t.queue, p)
            && (Of(t.queue, Some(p)) == [ResetPoolMarker(p)]
                || (Of(t.queue, Some(p)) == [] && |t.queue| >= QUEUE_DEPTH))
  {
    hide OtherPools, Of, Queued;
    forall q: nat | q != p ensures var t := ResetPoolEffect(s, p, owed); Of(t.queue, Some(q)) == Of(s.queue, Some(q)) {
      ResetQueue(s.queue, p, Some(q));
    }
    ResetQueue(s.queue, p, Some(p));
  }

  /** A POOL'S RESET leaves the other pools' work where it was, and current if it was, and leaves none
      of its own pool's in the queue or the table. */
  lemma ResetSparesWork(s: State, p: nat, owed: bool, w: Work)
    requires p < POOLS && CanReset(s, if owed then Some(p) else None)
    ensures var t := ResetPoolEffect(s, p, owed);
            && (Holds(s, w) && w.pool != p ==> Holds(t, w) && (Live(s, w) ==> Live(t, w)))
            && (w.pool == p ==> Item(w) !in t.queue && Some(w) !in t.slots)
  {
    ResetSparesQueue(s, p, owed);
    hide OtherPools, Of, Queued, Holds, ResetPoolEffect, ClearPool;
    ResetKeepsItem(s, p, owed, w);
    if Holds(s, w) && w.pool != p {
      ResetIsElsewhere(s, p, owed);
      HoldsOther(s, ResetPoolEffect(s, p, owed), p, w);
    }
    if w.pool == p {
      NoneLeftInTable(s, p, owed, w);
    }
  }

  lemma ResetKeepsItem(s: State, p: nat, owed: bool, w: Work)
    requires p < POOLS && CanReset(s, if owed then Some(p) else None)
    ensures var t := ResetPoolEffect(s, p, owed);
            && (w.pool != p && Item(w) in s.queue ==> Item(w) in t.queue)
            && (w.pool == p ==> Item(w) !in t.queue)
  {
    ResetSparesQueue(s, p, owed);
    var t := ResetPoolEffect(s, p, owed);
    OfHas(s.queue, Some(w.pool), Item(w));
    OfHas(t.queue, Some(w.pool), Item(w));
    hide ResetPoolEffect, Of, CanReset;
  }

  lemma NoneLeftInTable(s: State, p: nat, owed: bool, w: Work)
    requires p < POOLS && CanReset(s, if owed then Some(p) else None) && w.pool == p
    ensures Some(w) !in ResetPoolEffect(s, p, owed).slots
  {
    hide OtherPools, Queued;
  }

  /** Apart from the queue, the pool's epoch, the table and the receiver that owed it. */
  lemma ResetIsElsewhere(s: State, p: nat, owed: bool)
    requires p < POOLS && CanReset(s, if owed then Some(p) else None)
    ensures var t := ResetPoolEffect(s, p, owed);
            && t.slots == ClearPool(s.slots, p) && t.held == s.held && t.building == s.building
            && t.limbo == s.limbo && t.incoming == s.incoming && t.epoch == s.epoch
            && (forall q | 0 <= q < POOLS && s.rx[q].Built? :: t.rx[q] == s.rx[q])
            && (forall q | 0 <= q < POOLS && q != p :: t.poolEpoch[q] == s.poolEpoch[q])
  {
    hide OtherPools, Queued, ClearPool;
  }

  lemma HoldsOther(s: State, t: State, p: nat, w: Work)
    requires Shape(s) && Shape(t) && Holds(s, w) && w.pool != p
    requires Item(w) in s.queue ==> Item(w) in t.queue
    requires t.slots == ClearPool(s.slots, p) && t.held == s.held && t.building == s.building
    requires t.limbo == s.limbo && t.incoming == s.incoming
    requires forall q | 0 <= q < POOLS && s.rx[q].Built? :: t.rx[q] == s.rx[q]
    ensures Holds(t, w)
  {
    if Some(w) in s.slots {
      var k :| 0 <= k < |s.slots| && s.slots[k] == Some(w);
      assert t.slots[k] == Some(w);
    }
    if Built(w) in s.rx {
      var q :| 0 <= q < |s.rx| && s.rx[q] == Built(w);
      assert t.rx[q] == Built(w);
    }
  }

  // ----- making room

  lemma GivesWayIff(m: Message, p: nat)
    ensures GivesWayFor(m, p) <==> PoolOf(m) == Some(p)
  {
  }

  lemma TailSnoc(s: seq<Message>, m: Message)
    ensures (s + [m])[1..] == if s == [] then [] else s[1..] + [m]
    ensures s + [] == s
  {
  }

  /** MAKING ROOM for a pool loses its own oldest message, or nothing. */
  lemma {:induction false} RoomSparesOthers(queue: seq<Message>, p: nat, who: Option<nat>)
    ensures |WithoutOldest(queue, p)| == |queue| <==> Of(queue, Some(p)) == []
    ensures Of(WithoutOldest(queue, p), who)
         == if who == Some(p) && Of(queue, who) != [] then Of(queue, who)[1..] else Of(queue, who)
  {
    if queue != [] {
      var n := |queue| - 1;
      RoomSparesOthers(queue[..n], p, who);
      WithoutOldestStep(queue, p);
      GivesWayIff(queue[n], p);
      OfSnoc(WithoutOldest(queue[..n], p), queue[n], who);
      assert queue == queue[..n] + [queue[n]];
      OfSnoc(queue[..n], queue[n], who);
      OfSnoc(queue[..n], queue[n], Some(p));
      TailSnoc(Of(queue[..n], who), queue[n]);
      hide WithoutOldest, Of, PoolOf, GivesWayFor;
      assert |Of(queue[..n], Some(p)) + [queue[n]]| > 0;
    }
  }

  // ----- what a session change costs

  /** A DIFFICULTY THAT IS NO RAISE costs no work: nothing but the session's difficulty changes. One that
      is a raise leaves none of the pool's work current. */
  lemma DifficultyCosts(s: State, p: nat, difficulty: real, single: bool, w: Work)
    requires Inv(s) && AtRest(s) && p < POOLS && w.pool == p
    ensures var t, d := DifficultyEffect(s, p, difficulty, single), s.sessions[p].difficulty;
            && (difficulty <= d || difficulty <= 0.0 ==> t == s.(sessions := t.sessions))
            && (difficulty > d && difficulty > 0.0 && Holds(s, w) ==> !Live(t, w))
            && t.sessions == s.sessions[p := s.sessions[p].(difficulty := if difficulty > 0.0 then difficulty else d)]
  {
    if Holds(s, w) {
      assert WorkOk(s, w);
    }
    hide OtherPools, Queued, ClearPool, WorkOk, Holds;
  }

  /** A VERSION MASK THAT CHANGES NOTHING costs no work; any other leaves none of the pool's current. */
  lemma VersionMaskCosts(s: State, p: nat, mask: bv32, single: bool, w: Work)
    requires Inv(s) && AtRest(s) && p < POOLS && w.pool == p
    ensures var t, usable := VersionMaskEffect(s, p, mask, single), mask & DEFAULT_VERSION_MASK;
            && (usable == s.sessions[p].versionMask ==> t == s)
            && (usable != s.sessions[p].versionMask && Holds(s, w) ==> !Live(t, w))
            && t.sessions[p].versionMask == if usable == 0 then s.sessions[p].versionMask else usable
  {
    if Holds(s, w) {
      assert WorkOk(s, w);
    }
    assert ReceiverOk(s, p);
    hide OtherPools, Queued, ClearPool, WorkOk, Holds;
  }

  /** A SUBSCRIBE REPLY READIES A POOL exactly when its sizes are in range, and changes nothing otherwise. */
  lemma ReplyReadies(s: State, p: nat, x: Extranonce)
    requires Shape(s) && p < POOLS
    requires s.sessions[p].connected && !s.sessions[p].setupReady && s.sessions[p].difficulty > 0.0
    ensures var t := WithExtranonce(s, p, x);
            && (CanWork(t.sessions[p], 0.0) <==> 1 <= x.size2 <= 32 && |x.prefix| <= 32)
            && (CanWork(t.sessions[p], 0.0) ==> t.sessions[p].extranonce == x)
            && (!CanWork(t.sessions[p], 0.0) ==> t == s)
  {
  }

  // ----- a notification on its way

  /** The session can provide work. */
  predicate CanWork(session: Session, suggested: real) {
    && session.connected && session.setupReady
    && 0 < session.extranonce.size2 <= MAX_EXTRANONCE2_LEN
    && (session.difficulty > 0.0 || suggested > 0.0)
  }

  /** Work that is current and carries the session's values: the session's own difficulty and mask,
      and the suggested ones where it has none. */
  predicate Fresh(s: State, w: Work, p: nat, suggested: real, asicMask: bv32)
    requires p < |s.poolEpoch| && p < |s.sessions|
  {
    var session := s.sessions[p];
    && w.pool == p && w.epoch == s.epoch && w.poolEpoch == s.poolEpoch[p]
    && w.extranonce == session.extranonce
    && (session.difficulty > 0.0 ==> w.difficulty == session.difficulty)
    && (session.difficulty <= 0.0 ==> w.difficulty == suggested > 0.0)
    && (session.versionMask != 0 ==> w.versionMask == session.versionMask)
    && (session.versionMask == 0 ==> w.versionMask == asicMask)
  }

  /** The queue has room for the pool, free or taken by its own messages. */
  predicate HasRoom(queue: seq<Message>, p: nat) {
    |queue| < QUEUE_DEPTH || Of(queue, Some(p)) != []
  }

  /** ENQUEUEING puts fresh work last exactly when the session can provide it and there is room, at
      the price of the pool's own oldest message when the queue is full; no other pool loses
      anything. */
  lemma EnqueueSparesOthers(s: State, p: nat, suggested: real, asicMask: bv32)
    requires AtRest(s) && p < POOLS
    ensures var t := EnqueueEffect(s, p, suggested, asicMask);
            var mine := Of(s.queue, Some(p));
            && SparesOthers(s.queue, t.queue, p) && Of(t.queue, None) == Of(s.queue, None)
            && t == s.(queue := t.queue)
            && (if CanWork(s.sessions[p], suggested) && HasRoom(s.queue, p) then
                  t.queue != [] &&
                  var last := t.queue[|t.queue| - 1];
                  && last.Item? && Fresh(s, last.work, p, suggested, asicMask)
                  && Of(t.queue, Some(p)) == (if |s.queue| < QUEUE_DEPTH then mine else mine[1..]) + [last]
                else t.queue == s.queue)
  {
    CaptureIsFresh(s, p, suggested, asicMask);
    var w := CaptureWork(p, s.epoch, s.poolEpoch[p], s.sessions[p], suggested, asicMask);
    hide CaptureWork, Fresh, CanWork, Of, Enqueued;
    if w.Some? {
      forall q: nat ensures q != p ==> Of(Enqueued(s.queue, p, w.value), Some(q)) == Of(s.queue, Some(q)) {
        EnqueuedOf(s.queue, p, w.value, Some(q));
      }
      EnqueuedOf(s.queue, p, w.value, None);
      EnqueuedOf(s.queue, p, w.value, Some(p));
    }
  }

  lemma CaptureIsFresh(s: State, p: nat, suggested: real, asicMask: bv32)
    requires Shape(s) && p < POOLS
    ensures var w := CaptureWork(p, s.epoch, s.poolEpoch[p], s.sessions[p], suggested, asicMask);
            && (w.Some? <==> CanWork(s.sessions[p], suggested))
            && (w.Some? ==> Fresh(s, w.value, p, suggested, asicMask))
  {
  }

  lemma EnqueuedOf(queue: seq<Message>, p: nat, w: Work, who: Option<nat>)
    requires w.pool == p && |queue| <= QUEUE_DEPTH
    ensures var after, mine := Enqueued(queue, p, w), Of(queue, Some(p));
            && (who != Some(p) ==> Of(after, who) == Of(queue, who))
            && (if HasRoom(queue, p) then
                  && after != [] && after[|after| - 1] == Item(w)
                  && Of(after, Some(p)) == (if |queue| < QUEUE_DEPTH then mine else mine[1..]) + [Item(w)]
                else after == queue)
  {
    var room := if |queue| < QUEUE_DEPTH then queue else WithoutOldest(queue, p);
    RoomSparesOthers(queue, p, who);
    RoomSparesOthers(queue, p, Some(p));
    OfSnoc(room, Item(w), who);
    OfSnoc(room, Item(w), Some(p));
    if Of(queue, Some(p)) == [] {
      NothingLost(queue, p);
    }
    hide Of, WithoutOldest;
  }

  lemma {:induction false} NothingLost(queue: seq<Message>, p: nat)
    requires Of(queue, Some(p)) == []
    ensures WithoutOldest(queue, p) == queue
  {
    if queue != [] {
      NothingLost(queue[..|queue| - 1], p);
    }
  }

  /** The job task takes everything that is queued. */
  ghost function TakeAll(s: State): (t: State)
    requires AtRest(s)
    ensures AtRest(t)
    decreases |s.queue|
  {
    if s.queue == [] then s else TakeAll(TakeEffect(s))
  }

  lemma TakeKeeps(s: State)
    requires AtRest(s) && s.queue != []
    ensures var t := TakeEffect(s);
            && t.queue == s.queue[1..] && t.epoch == s.epoch && t.poolEpoch == s.poolEpoch
            && t.sessions == s.sessions && t.paused == s.paused && t.slots == s.slots
            && Word(t.current) == Word(s.epoch)
            && (s.queue[0].Item? && Live(s, s.queue[0].work) ==>
                  t.held[s.queue[0].work.pool] == Some(s.queue[0].work))
  {
  }

  /** The message queued last has the last word. */
  lemma {:induction false} LastTakenIsHeld(s0: State, s: State)
    requires AtRest(s) && Leads(s0, s) && s.queue != []
    requires var last := s.queue[|s.queue| - 1]; last.Item? && Live(s, last.work)
    ensures var w, t := s.queue[|s.queue| - 1].work, TakeAll(s);
            && Leads(s0, t) && t.held[w.pool] == Some(w) && Live(t, w) && Word(t.current) == Word(t.epoch)
            && t.paused == s.paused && t.slots == s.slots && t.queue == []
    decreases |s.queue|
  {
    hide TakeEffect;
    TakeKeeps(s);
    TakeLeads(s0, s);
    var next := TakeEffect(s);
    if |s.queue| > 1 {
      LastTakenIsHeld(s0, next);
    } else {
      assert TakeAll(next) == next;
    }
  }

  /** A NOTIFICATION REACHES THE ASIC. From every state at rest, paused or not, with a session that
      can provide work and room in the queue: resume, enqueue, let the job task take what is queued,
      and send. The pool's work in the slot is then the new one, with the session's values. */
  lemma NotificationDelivers(s: State, p: nat, suggested: real, asicMask: bv32, slot: nat) returns (t: State)
    requires AtRest(s) && p < POOLS && slot < SLOTS
    requires CanWork(s.sessions[p], suggested) && HasRoom(s.queue, p)
    ensures t == SendEffect(TakeAll(EnqueueEffect(ResumeEffect(s), p, suggested, asicMask)), p, slot)
    ensures Leads(s, t) && !t.paused
    ensures t.slots[slot].Some? && Fresh(s, t.slots[slot].value, p, suggested, asicMask)
    ensures forall k | 0 <= k < SLOTS && k != slot :: t.slots[k] == None
  {
    hide TakeAll, EnqueueEffect, Of, Leads;
    LeadsToSelf(s);
    PauseLeads(s, s);
    var s1 := ResumeEffect(s);
    EnqueueLeads(s, s1, p, suggested, asicMask);
    EnqueueSparesOthers(s1, p, suggested, asicMask);
    var s2 := EnqueueEffect(s1, p, suggested, asicMask);
    LastTakenIsHeld(s, s2);
    var s3 := TakeAll(s2);
    SendLeads(s, s3, p, slot);
    t := SendEffect(s3, p, slot);
    SendKeepsPaused(s3, p, slot);
  }

  lemma SendKeepsPaused(s: State, p: nat, slot: nat)
    requires AtRest(s) && p < POOLS && slot < SLOTS
    ensures SendEffect(s, p, slot).paused == s.paused
  {
  }
}

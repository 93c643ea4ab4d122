/** What every run of the work pipeline keeps: jobs in the ASIC table belong to the
    current epochs, a returned pause leaves the table empty, and live work carries its
    session's current parameters. */
module PipelineSafety {
  import opened Basics
  import opened PipelineMachine

  /** `w` is somewhere between being built by a receiver and sitting in the ASIC table. */
  ghost predicate Holds(s: State, w: Work) {
    || Item(w) in s.queue || Item(w) in s.limbo || s.incoming == Some(Item(w))
    || Some(w) in s.held || s.building == Some(w) || Some(w) in s.slots || Built(w) in s.rx
  }

  /** No reset has happened since the epochs of `w` were captured. */
  ghost predicate Live(s: State, w: Work)
    requires Shape(s)
  {
    w.pool < POOLS && w.epoch == s.epoch && w.poolEpoch == s.poolEpoch[w.pool]
  }

  ghost predicate Matches(session: Session, w: Work) {
    && w.extranonce == session.extranonce
    && w.versionMask == session.versionMask
    && w.difficulty >= session.difficulty
  }

  /** A live work of a pool whose receiver owes no reset agrees with the session, and the
      session can provide work. */
  ghost predicate WorkOk(s: State, w: Work)
    requires Shape(s)
  {
    && w.pool < POOLS && w.epoch <= s.epoch && w.poolEpoch <= s.poolEpoch[w.pool]
    && (Live(s, w) && !s.rx[w.pool].NeedsReset? ==>
          && s.sessions[w.pool].setupReady
          && !s.rx[w.pool].ExtranoncePending?
          && Matches(s.sessions[w.pool], w))
  }

  ghost predicate WorksOk(s: State)
    requires Shape(s)
  {
    forall w | Holds(s, w) :: WorkOk(s, w)
  }

  ghost predicate ReceiverOk(s: State, p: nat)
    requires Shape(s) && p < POOLS
  {
    && s.sessions[p].versionMask != 0
    && (!s.sessions[p].connected ==> !s.sessions[p].setupReady)
    && match s.rx[p] {
         case SawEpoch(e) => e <= s.epoch
         case SawEpochs(e, pe) => e <= s.epoch && pe <= s.poolEpoch[p]
         case _ => true
       }
  }

  ghost predicate ReceiversOk(s: State)
    requires Shape(s)
  {
    forall p: nat | p < POOLS :: ReceiverOk(s, p)
  }

  /** Everything the job task holds was accepted under its own copy of the epoch. */
  ghost predicate TaskOk(s: State)
    requires Shape(s)
  {
    && (forall p | 0 <= p < POOLS && s.held[p].Some? ::
          Word(s.held[p].value.epoch) == Word(s.current))
    && (s.building.Some? ==> Word(s.building.value.epoch) == Word(s.current))
    && (s.lock == Sending(true) && s.building.Some? ==> WordLive(s, s.building.value))
  }

  /** Slot by slot: a job may be stale only while a reset that will clear it is between
      its bump and its clear. */
  ghost predicate SlotOk(s: State, w: Work) {
    match s.lock
    case BumpingAll(_) => true
    case PoolBumped(p) => w.pool == p || WordLive(s, w)
    case _ => WordLive(s, w)
  }

  ghost predicate TableOk(s: State) {
    forall k | 0 <= k < |s.slots| && s.slots[k].Some? :: SlotOk(s, s.slots[k].value)
  }

  ghost predicate Empty(slots: seq<Option<Work>>) {
    forall k | 0 <= k < |slots| :: slots[k] == None
  }

  ghost predicate QuietOk(s: State) {
    s.quiet ==> s.paused && s.lock != Sending(true) && Empty(s.slots)
  }

  ghost predicate Inv(s: State) {
    Shape(s) && WorksOk(s) && ReceiversOk(s) && TaskOk(s) && TableOk(s) && QuietOk(s)
  }

  /** `stratum_minimal_start`: nothing in flight, sessions with a usable default mask. */
  ghost predicate Initial(s: State) {
    && Shape(s)
    && s.lock == Free && s.epoch == s.current && s.queue == [] && s.limbo == []
    && s.incoming == None && s.held == NoWork(POOLS) && s.building == None
    && s.slots == NoWork(SLOTS) && !s.paused && !s.quiet
    && forall p: nat | p < POOLS ::
         && s.rx[p] == Idle && !s.sessions[p].connected && !s.sessions[p].setupReady
         && s.sessions[p].versionMask != 0
  }

  // ----- no action other than reading a session makes new work

  lemma EnqueueMakesNoOtherWork(s: State, p: nat, e: EnqueueStep, w: Work)
    requires Shape(s) && EnqueueEnabled(s, p, e) && Holds(EnqueueNext(s, p, e), w)
    ensures Holds(s, w) || (e.ReadSession? && EnqueueNext(s, p, e).rx[p] == Built(w))
  {
  }

  lemma ResetMakesNoWork(s: State, r: ResetStep, w: Work)
    requires Shape(s) && ResetEnabled(s, r) && Holds(ResetNext(s, r), w)
    ensures Holds(s, w)
  {
  }

  lemma DrainMakesNoWork(s: State, d: DrainStep, w: Work)
    requires Shape(s) && DrainEnabled(s, d) && Holds(DrainNext(s, d), w)
    ensures Holds(s, w)
  {
  }

  lemma JobMakesNoWork(s: State, j: JobStep, w: Work)
    requires Shape(s) && JobEnabled(s, j) && Holds(JobNext(s, j), w)
    ensures Holds(s, w)
  {
  }

  lemma SetupMakesNoWork(s: State, p: nat, u: SetupStep, w: Work)
    requires Shape(s) && SetupEnabled(s, p, u) && Holds(SetupNext(s, p, u), w)
    ensures Holds(s, w)
  {
  }

  // ----- each group of actions keeps the invariant

  lemma EnqueueKeepsInv(s: State, p: nat, e: EnqueueStep)
    requires Inv(s) && EnqueueEnabled(s, p, e)
    ensures Inv(EnqueueNext(s, p, e))
  {
    var t := EnqueueNext(s, p, e);
    forall w | Holds(t, w) ensures WorkOk(t, w) {
      EnqueueMakesNoOtherWork(s, p, e, w);
      if Holds(s, w) { assert WorkOk(s, w); }
      assert ReceiverOk(s, p);
    }
    forall q: nat | q < POOLS ensures ReceiverOk(t, q) { assert ReceiverOk(s, q); }
  }

  lemma ResetKeepsInv(s: State, r: ResetStep)
    requires Inv(s) && ResetEnabled(s, r)
    ensures Inv(ResetNext(s, r))
  {
    var t := ResetNext(s, r);
    forall w | Holds(t, w) ensures WorkOk(t, w) {
      ResetMakesNoWork(s, r, w);
      assert WorkOk(s, w);
    }
    forall q: nat | q < POOLS ensures ReceiverOk(t, q) { assert ReceiverOk(s, q); }
    forall k | 0 <= k < SLOTS && t.slots[k].Some? ensures SlotOk(t, t.slots[k].value) {
      assert SlotOk(s, s.slots[k].value);
      assert Some(s.slots[k].value) in s.slots && Holds(s, s.slots[k].value);
    }
  }

  lemma DrainKeepsInv(s: State, d: DrainStep)
    requires Inv(s) && DrainEnabled(s, d)
    ensures Inv(DrainNext(s, d))
  {
    var t := DrainNext(s, d);
    forall w | Holds(t, w) ensures WorkOk(t, w) {
      DrainMakesNoWork(s, d, w);
      assert WorkOk(s, w);
    }
    forall q: nat | q < POOLS ensures ReceiverOk(t, q) { assert ReceiverOk(s, q); }
  }

  lemma JobKeepsWorksOk(s: State, j: JobStep)
    requires Inv(s) && JobEnabled(s, j)
    ensures WorksOk(JobNext(s, j)) && ReceiversOk(JobNext(s, j))
  {
    var t := JobNext(s, j);
    assert t.epoch == s.epoch && t.poolEpoch == s.poolEpoch && t.rx == s.rx && t.sessions == s.sessions;
    forall w | Holds(t, w) ensures WorkOk(t, w) {
      JobMakesNoWork(s, j, w);
      assert WorkOk(s, w);
    }
    forall q: nat | q < POOLS ensures ReceiverOk(t, q) { assert ReceiverOk(s, q); }
  }

  lemma JobKeepsTaskOk(s: State, j: JobStep)
    requires Inv(s) && JobEnabled(s, j)
    ensures TaskOk(JobNext(s, j))
  {
  }

  lemma JobKeepsTableOk(s: State, j: JobStep)
    requires Inv(s) && JobEnabled(s, j)
    ensures TableOk(JobNext(s, j)) && QuietOk(JobNext(s, j))
  {
    var t := JobNext(s, j);
    forall k | 0 <= k < SLOTS && t.slots[k].Some? ensures SlotOk(t, t.slots[k].value) {
      if s.slots[k].Some? { assert SlotOk(s, s.slots[k].value); }
    }
  }

  lemma JobKeepsInv(s: State, j: JobStep)
    requires Inv(s) && JobEnabled(s, j)
    ensures Inv(JobNext(s, j))
  {
    JobKeepsWorksOk(s, j);
    JobKeepsTaskOk(s, j);
    JobKeepsTableOk(s, j);
  }

  lemma PauseKeepsInv(s: State, h: PauseStep)
    requires Inv(s) && PauseEnabled(s, h)
    ensures Inv(PauseNext(s, h))
  {
    var t := PauseNext(s, h);
    forall w | Holds(t, w) ensures WorkOk(t, w) {
      assert Holds(s, w) && WorkOk(s, w);
    }
    forall q: nat | q < POOLS ensures ReceiverOk(t, q) { assert ReceiverOk(s, q); }
  }

  /** A session change that leaves live work behind hands the receiver an owed reset. */
  lemma SetupKeepsWorkOk(s: State, p: nat, u: SetupStep, w: Work)
    requires Inv(s) && SetupEnabled(s, p, u) && WorkOk(s, w)
    ensures WorkOk(SetupNext(s, p, u), w)
  {
    assert ReceiverOk(s, p);
    if w.pool != p {
      assert SetupNext(s, p, u).rx[w.pool] == s.rx[w.pool];
    } else {
      match u
      case _ =>
    }
  }

  lemma SetupKeepsReceiversOk(s: State, p: nat, u: SetupStep)
    requires Inv(s) && SetupEnabled(s, p, u)
    ensures ReceiversOk(SetupNext(s, p, u))
  {
    var t := SetupNext(s, p, u);
    forall q: nat | q < POOLS ensures ReceiverOk(t, q) { assert ReceiverOk(s, q); }
  }

  lemma SetupKeepsInv(s: State, p: nat, u: SetupStep)
    requires Inv(s) && SetupEnabled(s, p, u)
    ensures Inv(SetupNext(s, p, u))
  {
    var t := SetupNext(s, p, u);
    forall w | Holds(t, w) ensures WorkOk(t, w) {
      SetupMakesNoWork(s, p, u, w);
      SetupKeepsWorkOk(s, p, u, w);
    }
    SetupKeepsReceiversOk(s, p, u);
    assert t.slots == s.slots && t.lock == s.lock && t.poolEpoch == s.poolEpoch;
  }

  lemma StepKeepsInv(s: State, a: Action)
    requires Inv(s) && Enabled(s, a)
    ensures Inv(Next(s, a))
  {
    match a
    case Enqueue(p, e) => EnqueueKeepsInv(s, p, e);
    case Reset(r) => ResetKeepsInv(s, r);
    case Drain(d) => DrainKeepsInv(s, d);
    case Job(j) => JobKeepsInv(s, j);
    case Pause(h) => PauseKeepsInv(s, h);
    case Setup(p, u) => SetupKeepsInv(s, p, u);
  }

  lemma InitialHoldsNothing(s: State, w: Work)
    requires Initial(s)
    ensures !Holds(s, w)
  {
    assert forall p: nat | p < POOLS :: s.rx[p] == Idle;
  }

  lemma InitialInv(s: State)
    requires Initial(s)
    ensures Inv(s)
  {
    forall q: nat | q < POOLS ensures ReceiverOk(s, q) { assert s.rx[q] == Idle; }
    forall w ensures !Holds(s, w) { InitialHoldsNothing(s, w); }
  }

  /** Every interleaving of the tasks, of any length, keeps the invariant. */
  lemma {:induction false} RunKeepsInv(s: State, trace: seq<Action>)
    requires Inv(s) && After(s, trace).Some?
    ensures Inv(After(s, trace).value)
  {
    hide Enabled, Next;
    if trace == [] {
    } else {
      var before := trace[..|trace| - 1];
      RunKeepsInv(s, before);
      StepKeepsInv(After(s, before).value, trace[|trace| - 1]);
    }
  }

  ghost predicate Reachable(t: State) {
    Shape(t) && exists s, trace :: Initial(s) && After(s, trace) == Some(t)
  }

  lemma ReachableInv(t: State)
    requires Reachable(t)
    ensures Inv(t)
  {
    var s, trace :| Initial(s) && After(s, trace) == Some(t);
    InitialInv(s);
    RunKeepsInv(s, trace);
  }

  // ----- main results

  /** Whenever nobody is inside the reset lock, every job in the ASIC table was built from
      work whose captured epochs equal the current ones, whatever stale items the queue
      still holds. */
  lemma EpochSafety(t: State, k: nat)
    requires Reachable(t) && t.lock.Free? && k < |t.slots| && t.slots[k].Some?
    ensures WordLive(t, t.slots[k].value)
  {
    ReachableInv(t);
    assert SlotOk(t, t.slots[k].value);
  }

  /** Between the return of a pause and the next resume's store the table stays empty. */
  lemma PauseSafety(t: State)
    requires Reachable(t) && t.quiet
    ensures t.paused && Empty(t.slots)
  {
    ReachableInv(t);
  }

  /** At a handler boundary of pool `p` every live work of `p`, wherever it is, carries the
      session's extranonce and version mask and a difficulty not below the session's;
      a pool that is disconnected or not set up has no live work at all. */
  lemma LiveWorkCoherence(t: State, w: Work)
    requires Reachable(t) && Holds(t, w) && Live(t, w) && !t.rx[w.pool].NeedsReset?
    ensures Matches(t.sessions[w.pool], w)
    ensures t.sessions[w.pool].connected && t.sessions[w.pool].setupReady
  {
    ReachableInv(t);
    assert WorkOk(t, w) && ReceiverOk(t, w.pool);
  }

  /** Fewer than 2^32 resets since the epochs of `w` were captured. */
  predicate Recent(t: State, w: Work)
    requires w.pool < |t.poolEpoch|
  {
    t.epoch - w.epoch < WORD && t.poolEpoch[w.pool] - w.poolEpoch < WORD
  }

  /** Comparing words is comparing counters exactly while fewer than 2^32 resets lie between. */
  lemma WordsAreExactIff(t: State, w: Work)
    requires Shape(t) && WorkOk(t, w) && WordLive(t, w)
    ensures Live(t, w) <==> Recent(t, w)
  {
    CloseWords(w.epoch, t.epoch);
    CloseWords(w.poolEpoch, t.poolEpoch[w.pool]);
    hide Word;
  }

  lemma CloseWords(a: nat, b: nat)
    requires a <= b && Word(a) == Word(b)
    ensures a == b <==> b - a < WORD
  {
  }

  /** WHAT THE HARDWARE IS HASHING is current exactly when fewer than 2^32 resets have happened since
      it was captured, and then it agrees with its session. */
  lemma TableCoherence(t: State, k: nat)
    requires Reachable(t) && t.lock.Free? && k < |t.slots| && t.slots[k].Some?
    ensures var w := t.slots[k].value;
            && w.pool < POOLS && |t.poolEpoch| == POOLS
            && (Live(t, w) <==> Recent(t, w))
            && (Recent(t, w) && !t.rx[w.pool].NeedsReset? ==>
                  t.sessions[w.pool].connected && Matches(t.sessions[w.pool], w))
  {
    var w := t.slots[k].value;
    EpochSafety(t, k);
    ReachableInv(t);
    assert Some(w) in t.slots && Holds(t, w);
    WordsAreExactIff(t, w);
    if Live(t, w) && !t.rx[w.pool].NeedsReset? { LiveWorkCoherence(t, w); }
  }

  /** A subscribe reply replaces the extranonce without a reset, so it keeps live work
      coherent exactly when there is none for the pool or nothing changes. */
  lemma SubscribeReplyIff(s: State, p: nat, x: Extranonce)
    requires Inv(s) && p < POOLS && s.rx[p].Idle? && UsableExtranonce(x)
    ensures WorksOk(WithExtranonce(s, p, x)) <==>
            (x == s.sessions[p].extranonce ||
             forall w | Holds(s, w) && Live(s, w) :: w.pool != p)
    ensures !s.sessions[p].setupReady ==> WorksOk(WithExtranonce(s, p, x))
  {
    var t := WithExtranonce(s, p, x);
    forall w ensures Holds(t, w) == Holds(s, w) {}
    forall w | Holds(s, w)
      ensures WorkOk(t, w) <==> (x == s.sessions[p].extranonce || !Live(s, w) || w.pool != p)
    {
      assert WorkOk(s, w);
    }
  }
}

/** The ASIC work pipeline as a state machine whose actions are the points at which
    the tasks of main/stratum_minimal.c touch shared state.

    Three receiver tasks (one per pool), the job task, callers of reset, pause and
    resume, and hardware code that empties the job table may take their actions in any
    order. `Enabled` and `Next` say what one action needs and does; `After` runs a list
    of actions. Counters are unbounded here; the firmware keeps and compares only
    their low 32 bits, which is what `Word` stands for. */
module PipelineMachine {
  import opened Basics

  const POOLS: nat := 3
  const SLOTS: nat := 128
  const QUEUE_DEPTH: nat := 4 * POOLS
  const MAX_EXTRANONCE2_LEN: nat := 32
  const DEFAULT_VERSION_MASK: bv32 := 0x1fff_e000
  const WORD: nat := 0x1_0000_0000

  /** What a 32-bit atomic shows of a counter. */
  function Word(counter: nat): nat {
    counter % WORD
  }

  datatype Extranonce = Extranonce(prefix: seq<bv8>, size2: int)

  datatype Session = Session(connected: bool, setupReady: bool, extranonce: Extranonce,
                             difficulty: real, versionMask: bv32)

  /** A notification together with the epochs and session values captured for it. */
  datatype Work = Work(pool: nat, epoch: nat, poolEpoch: nat, extranonce: Extranonce,
                       difficulty: real, versionMask: bv32)

  datatype Message =
    | Item(work: Work)
    | ResetAllMarker
    | ResetPoolMarker(pool: nat)

  /** Where a receiver task stands inside the handler it is running. */
  datatype Receiver =
    | Idle
    | SawEpoch(epoch: nat)
    | SawEpochs(epoch: nat, poolEpoch: nat)
    | Built(work: Work)
    | NeedsReset(thenExtranonce: bool)
    | ExtranoncePending

  /** Who is inside `g_work_reset_lock`, and how far. */
  datatype Lock =
    | Free
    | BumpingAll(next: nat)
    | PoolBumped(pool: nat)
    | Cleared(scope: Option<nat>)
    | Sending(passed: bool)

  datatype State = State(
    lock: Lock,
    epoch: nat,
    poolEpoch: seq<nat>,
    queue: seq<Message>,
    limbo: seq<Message>,          // taken out by a queue rotation and not yet put back
    incoming: Option<Message>,    // received by the job task and not yet applied
    current: nat,                 // the job task's own copy of the global epoch
    held: seq<Option<Work>>,
    building: Option<Work>,
    slots: seq<Option<Work>>,
    paused: bool,
    quiet: bool,                  // a pause has returned and no resume has stored since
    sessions: seq<Session>,
    rx: seq<Receiver>)

  /** `enqueue_work`, split where other tasks can run between its loads and its send. */
  datatype EnqueueStep =
    | CaptureEpoch
    | CapturePoolEpoch
    | ReadSession(suggested: real, asicMask: bv32)
    | Push
    | Abandon

  /** `reset_work_state` and `reset_pool_work_state`, under the reset lock. `owner` is the
      receiver that owes this reset to its own session change, if any. */
  datatype ResetStep =
    | BeginAll(owner: Option<nat>)
    | BumpPool
    | ClearTable
    | BeginPool(p: nat, owed: bool)
    | ClearPoolSlots
    | QueueMarker
    | Release

  /** Queue rotation by a reset or by a receiver making room. */
  datatype DrainStep =
    | Take
    | Return(i: nat)
    | Drop(i: nat)

  datatype JobStep =
    | Receive
    | Sync
    | ApplyIncoming
    | Build(p: nat)
    | SendCheck
    | SendCommit(slot: nat)
    | SendRelease

  datatype PauseStep =
    | ClearUnlocked
    | PauseStore
    | PauseClear
    | ResumeClear
    | ResumeStore

  /** Session changes made by a pool's own receiver task. */
  datatype SetupStep =
    | SetVersionMask(mask: bv32)
    | SetDifficulty(difficulty: real)
    | SuggestDifficulty(difficulty: real)
    | BeginSetExtranonce
    | FinishSetExtranonce(extranonce: Extranonce)
    | Subscribe(extranonce: Extranonce)
    | Connect
    | Disconnect(clearWork: bool)

  datatype Action =
    | Enqueue(p: nat, enqueue: EnqueueStep)
    | Reset(reset: ResetStep)
    | Drain(drain: DrainStep)
    | Job(job: JobStep)
    | Pause(pause: PauseStep)
    | Setup(p: nat, setup: SetupStep)

  /** Both epochs captured for `w` look current to code comparing 32-bit words. */
  predicate WordLive(s: State, w: Work) {
    && w.pool < |s.poolEpoch|
    && Word(w.epoch) == Word(s.epoch) && Word(w.poolEpoch) == Word(s.poolEpoch[w.pool])
  }

  ghost predicate Shape(s: State) {
    && |s.poolEpoch| == POOLS && |s.held| == POOLS && |s.sessions| == POOLS && |s.rx| == POOLS
    && |s.slots| == SLOTS
  }

  predicate UsableExtranonce(x: Extranonce) {
    0 < x.size2 <= MAX_EXTRANONCE2_LEN && |x.prefix| <= MAX_EXTRANONCE2_LEN
  }

  function UsableVersionMask(mask: bv32): bv32 {
    mask & DEFAULT_VERSION_MASK
  }

  /** The work `enqueue_work` builds from a session, or nothing when the session cannot
      provide it yet. */
  function CaptureWork(p: nat, epoch: nat, poolEpoch: nat, session: Session, suggested: real,
                       asicMask: bv32): Option<Work>
  {
    if !(session.connected && session.setupReady &&
         0 < session.extranonce.size2 <= MAX_EXTRANONCE2_LEN) then None
    else
      var difficulty := if session.difficulty > 0.0 then session.difficulty else suggested;
      if difficulty <= 0.0 then None
      else Some(Work(p, epoch, poolEpoch, session.extranonce, difficulty,
                     if session.versionMask != 0 then session.versionMask else asicMask))
  }

  /** A table of `n` empty entries. */
  function NoWork(n: nat): (r: seq<Option<Work>>)
    ensures |r| == n && forall k | 0 <= k < n :: r[k] == None
  {
    seq(n, _ => None)
  }

  /** `bitaxe_gamma602_clear_pool_jobs` on the table of jobs. */
  function ClearPool(slots: seq<Option<Work>>, p: nat): (r: seq<Option<Work>>)
    ensures |r| == |slots|
    ensures forall k | 0 <= k < |slots| ::
              r[k] == if slots[k].Some? && slots[k].value.pool == p then None else slots[k]
  {
    seq(|slots|, k requires 0 <= k < |slots| =>
      if slots[k].Some? && slots[k].value.pool == p then None else slots[k])
  }

  function Without<T>(s: seq<T>, i: nat): seq<T>
    requires i < |s|
  {
    s[..i] + s[i + 1..]
  }

  /** `queue_work_reset_marker`. */
  function Marker(scope: Option<nat>): Message {
    if scope.Some? then ResetPoolMarker(scope.value) else ResetAllMarker
  }

  function AfterReset(r: Receiver): Receiver {
    if r == NeedsReset(true) then ExtranoncePending else Idle
  }

  // ----- enqueue

  ghost predicate EnqueueEnabled(s: State, p: nat, e: EnqueueStep)
    requires Shape(s)
  {
    p < POOLS &&
    match e
    case CaptureEpoch => s.rx[p].Idle?
    case CapturePoolEpoch => s.rx[p].SawEpoch?
    case ReadSession(_, _) => s.rx[p].SawEpochs?
    case Push => s.rx[p].Built? && |s.queue| < QUEUE_DEPTH
    case Abandon => s.rx[p].SawEpoch? || s.rx[p].SawEpochs? || s.rx[p].Built?
  }

  ghost function EnqueueNext(s: State, p: nat, e: EnqueueStep): (t: State)
    requires Shape(s) && EnqueueEnabled(s, p, e)
    ensures Shape(t)
  {
    match e
    case CaptureEpoch => s.(rx := s.rx[p := SawEpoch(s.epoch)])
    case CapturePoolEpoch => s.(rx := s.rx[p := SawEpochs(s.rx[p].epoch, s.poolEpoch[p])])
    case ReadSession(suggested, asicMask) =>
      var w := CaptureWork(p, s.rx[p].epoch, s.rx[p].poolEpoch, s.sessions[p], suggested, asicMask);
      s.(rx := s.rx[p := if w.Some? then Built(w.value) else Idle])
    case Push => s.(queue := s.queue + [Item(s.rx[p].work)], rx := s.rx[p := Idle])
    case Abandon => s.(rx := s.rx[p := Idle])
  }

  // ----- resets

  ghost predicate ResetEnabled(s: State, r: ResetStep)
    requires Shape(s)
  {
    match r
    case BeginAll(owner) =>
      s.lock.Free? && (owner.Some? ==> owner.value < POOLS && s.rx[owner.value].NeedsReset?)
    case BumpPool => s.lock.BumpingAll? && s.lock.next < POOLS
    case ClearTable => s.lock == BumpingAll(POOLS)
    case BeginPool(p, owed) => s.lock.Free? && p < POOLS && (owed ==> s.rx[p].NeedsReset?)
    case ClearPoolSlots => s.lock.PoolBumped?
    case QueueMarker => s.lock.Cleared? && |s.queue| < QUEUE_DEPTH
    case Release => s.lock.Cleared?
  }

  ghost function ResetNext(s: State, r: ResetStep): (t: State)
    requires Shape(s) && ResetEnabled(s, r)
    ensures Shape(t)
  {
    match r
    case BeginAll(owner) =>
      s.(lock := BumpingAll(0), epoch := s.epoch + 1,
         rx := if owner.Some? then s.rx[owner.value := AfterReset(s.rx[owner.value])] else s.rx)
    case BumpPool =>
      s.(lock := BumpingAll(s.lock.next + 1),
         poolEpoch := s.poolEpoch[s.lock.next := s.poolEpoch[s.lock.next] + 1])
    case ClearTable => s.(lock := Cleared(None), slots := NoWork(SLOTS))
    case BeginPool(p, owed) =>
      s.(lock := PoolBumped(p), poolEpoch := s.poolEpoch[p := s.poolEpoch[p] + 1],
         rx := if owed then s.rx[p := AfterReset(s.rx[p])] else s.rx)
    case ClearPoolSlots =>
      s.(lock := Cleared(Some(s.lock.pool)), slots := ClearPool(s.slots, s.lock.pool))
    case QueueMarker => s.(queue := s.queue + [Marker(s.lock.scope)])
    case Release => s.(lock := Free)
  }

  // ----- queue rotation

  ghost predicate DrainEnabled(s: State, d: DrainStep) {
    match d
    case Take => s.queue != []
    case Return(i) => i < |s.limbo| && |s.queue| < QUEUE_DEPTH
    case Drop(i) => i < |s.limbo|
  }

  ghost function DrainNext(s: State, d: DrainStep): (t: State)
    requires Shape(s) && DrainEnabled(s, d)
    ensures Shape(t)
  {
    match d
    case Take => s.(queue := s.queue[1..], limbo := s.limbo + [s.queue[0]])
    case Return(i) => s.(queue := s.queue + [s.limbo[i]], limbo := Without(s.limbo, i))
    case Drop(i) => s.(limbo := Without(s.limbo, i))
  }

  // ----- the job task

  /** `job_task_apply_incoming`: what one received message does to the job task. */
  ghost function Applied(s: State, m: Message): (t: State)
    requires Shape(s)
    ensures Shape(t)
  {
    match m
    case ResetAllMarker => s.(held := NoWork(POOLS), current := s.epoch)
    case ResetPoolMarker(p) => if p < POOLS then s.(held := s.held[p := None]) else s
    case Item(w) =>
      if w.pool < POOLS && Word(w.epoch) == Word(s.current) &&
         Word(w.poolEpoch) == Word(s.poolEpoch[w.pool])
      then s.(held := s.held[w.pool := Some(w)])
      else s
  }

  ghost predicate SendAllowed(s: State, w: Work)
    requires Shape(s)
  {
    && Word(s.current) == Word(s.epoch)
    && w.pool < POOLS && Word(w.poolEpoch) == Word(s.poolEpoch[w.pool])
    && !s.paused
  }

  ghost predicate JobEnabled(s: State, j: JobStep)
    requires Shape(s)
  {
    match j
    case Receive => s.building.None? && s.incoming.None? && s.queue != []
    case Sync => s.building.None?
    case ApplyIncoming => s.building.None? && s.incoming.Some?
    case Build(p) => s.building.None? && p < POOLS && s.held[p].Some? && !s.lock.Sending?
    case SendCheck => s.lock.Free? && s.building.Some?
    case SendCommit(slot) => s.lock == Sending(true) && s.building.Some? && slot < SLOTS
    case SendRelease => s.lock.Sending? && (s.lock.passed ==> s.building.None?)
  }

  ghost function JobNext(s: State, j: JobStep): (t: State)
    requires Shape(s) && JobEnabled(s, j)
    ensures Shape(t)
  {
    match j
    case Receive => s.(queue := s.queue[1..], incoming := Some(s.queue[0]))
    case Sync => s.(held := NoWork(POOLS), current := s.epoch)
    case ApplyIncoming => Applied(s, s.incoming.value).(incoming := None)
    case Build(p) => s.(building := s.held[p])
    case SendCheck => s.(lock := Sending(SendAllowed(s, s.building.value)))
    case SendCommit(slot) => s.(slots := s.slots[slot := s.building], building := None)
    case SendRelease => s.(lock := Free, building := None)
  }

  // ----- pause, resume and hardware clears

  ghost predicate PauseEnabled(s: State, h: PauseStep) {
    h.PauseClear? || h.ResumeClear? ==> s.lock.Free?
  }

  ghost function PauseNext(s: State, h: PauseStep): (t: State)
    requires Shape(s) && PauseEnabled(s, h)
    ensures Shape(t)
  {
    match h
    case ClearUnlocked => s.(slots := NoWork(SLOTS))
    case PauseStore => s.(paused := true)
    case PauseClear => s.(slots := NoWork(SLOTS), quiet := s.paused)
    case ResumeClear => s.(slots := NoWork(SLOTS))
    case ResumeStore => s.(paused := false, quiet := false)
  }

  // ----- session changes

  /** Whether `set_pool_session_difficulty` reports a raise. */
  predicate Raises(session: Session, difficulty: real) {
    difficulty > 0.0 && difficulty > session.difficulty
  }

  /** `update_extranonce_values`: malformed values are ignored. */
  ghost function WithExtranonce(s: State, p: nat, x: Extranonce): (t: State)
    requires Shape(s) && p < POOLS
    ensures Shape(t)
  {
    if !UsableExtranonce(x) then s
    else s.(sessions := s.sessions[p := s.sessions[p].(extranonce := x, setupReady := true)])
  }

  ghost function WithDifficulty(s: State, p: nat, difficulty: real): (t: State)
    requires Shape(s) && p < POOLS
    ensures Shape(t)
  {
    if difficulty <= 0.0 then s
    else s.(sessions := s.sessions[p := s.sessions[p].(difficulty := difficulty)])
  }

  ghost predicate SetupEnabled(s: State, p: nat, u: SetupStep)
    requires Shape(s)
  {
    p < POOLS && (u.FinishSetExtranonce? <==> s.rx[p].ExtranoncePending?) &&
    (!u.FinishSetExtranonce? ==> s.rx[p].Idle?) &&
    match u
    case SuggestDifficulty(_) => !s.sessions[p].connected
    case Connect => !s.sessions[p].connected
    case Disconnect(_) => true
    // The subscribe reply comes before anything else has made the session ready.
    case Subscribe(_) => s.sessions[p].connected && !s.sessions[p].setupReady
    case _ => s.sessions[p].connected
  }

  ghost function SetupNext(s: State, p: nat, u: SetupStep): (t: State)
    requires Shape(s) && SetupEnabled(s, p, u)
    ensures Shape(t)
  {
    match u
    case SetVersionMask(mask) =>
      var usable := UsableVersionMask(mask);
      if usable == 0 || usable == s.sessions[p].versionMask then s
      else s.(sessions := s.sessions[p := s.sessions[p].(versionMask := usable)],
              rx := s.rx[p := NeedsReset(false)])
    case SetDifficulty(d) =>
      WithDifficulty(s, p, d).(
        rx := if Raises(s.sessions[p], d) then s.rx[p := NeedsReset(false)] else s.rx)
    case SuggestDifficulty(d) => WithDifficulty(s, p, d)
    case BeginSetExtranonce => s.(rx := s.rx[p := NeedsReset(true)])
    case FinishSetExtranonce(x) => WithExtranonce(s, p, x).(rx := s.rx[p := Idle])
    case Subscribe(x) => WithExtranonce(s, p, x)
    case Connect =>
      s.(sessions := s.sessions[p := s.sessions[p].(connected := true, setupReady := false)])
    case Disconnect(clearWork) =>
      s.(sessions := s.sessions[p := s.sessions[p].(connected := false, setupReady := false)],
         rx := if clearWork || s.sessions[p].connected then s.rx[p := NeedsReset(false)] else s.rx)
  }

  // ----- runs

  ghost predicate Enabled(s: State, a: Action)
    requires Shape(s)
  {
    match a
    case Enqueue(p, e) => EnqueueEnabled(s, p, e)
    case Reset(r) => ResetEnabled(s, r)
    case Drain(d) => DrainEnabled(s, d)
    case Job(j) => JobEnabled(s, j)
    case Pause(h) => PauseEnabled(s, h)
    case Setup(p, u) => SetupEnabled(s, p, u)
  }

  ghost function Next(s: State, a: Action): (t: State)
    requires Shape(s) && Enabled(s, a)
    ensures Shape(t)
  {
    match a
    case Enqueue(p, e) => EnqueueNext(s, p, e)
    case Reset(r) => ResetNext(s, r)
    case Drain(d) => DrainNext(s, d)
    case Job(j) => JobNext(s, j)
    case Pause(h) => PauseNext(s, h)
    case Setup(p, u) => SetupNext(s, p, u)
  }

  /** The state a list of actions leads to, or nothing if one of them cannot be taken. */
  ghost function After(s: State, trace: seq<Action>): (t: Option<State>)
    requires Shape(s)
    ensures t.Some? ==> Shape(t.value)
  {
    if trace == [] then Some(s)
    else
      var before := After(s, trace[..|trace| - 1]);
      var a := trace[|trace| - 1];
      if before.Some? && Enabled(before.value, a) then Some(Next(before.value, a)) else None
  }

  lemma AfterStep(s: State, trace: seq<Action>, a: Action)
    requires Shape(s) && After(s, trace).Some? && Enabled(After(s, trace).value, a)
    ensures After(s, trace + [a]) == Some(Next(After(s, trace).value, a))
  {
    hide Enabled, Next, Shape;
    assert (trace + [a])[..|trace|] == trace;
  }
}

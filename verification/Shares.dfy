/** The share accounting of main/stratum_minimal.c: request ids, the 16-slot ring of ids waiting for
    a reply, and the counters the replies move. */
module Shares {

  const SLOTS: nat := 16
  const POOLS: nat := 3
  const FIRST_UID: int := 10

  // ----- the ledger

  /** `waiting` is the pool of a share that is marked but not yet counted as submitted. The last
      four counters are bookkeeping of the proof: shares marked, ids lost to the ring, replies that
      matched an empty slot, and their share of the accepted. */
  datatype Ledger = Ledger(
    ids: seq<int>,
    pools: seq<nat>,
    next: nat,
    uid: int,
    accepted: nat,
    rejected: nat,
    submitted: nat,
    poolAccepted: seq<nat>,
    poolRejected: seq<nat>,
    poolSubmitted: seq<nat>,
    waiting: Waiting,
    marked: nat,
    overwritten: nat,
    phantom: nat
  )

  datatype Waiting = Nobody | Pool(pool: nat)

  datatype Action =
    | Spend                        // an id for a request that is no share, or whose write failed
    | Mark(pool: nat)              // an id is taken, the share is written and marked
    | Count                        // the share marked last is counted
    | Reply(id: int, success: bool, fast: bool)

  function Start(): Ledger {
    Ledger(EmptyIds(), EmptyPools(), 0, FIRST_UID, 0, 0, 0, [0, 0, 0], [0, 0, 0], [0, 0, 0], Nobody, 0, 0, 0)
  }

  function EmptyIds(): (r: seq<int>)
    ensures |r| == SLOTS && forall i :: 0 <= i < SLOTS ==> r[i] == 0
  {
    seq(SLOTS, _ => 0)
  }

  lemma AllEmpty(ids: seq<int>, pools: seq<nat>)
    requires |ids| == |pools| == SLOTS && forall i | 0 <= i < SLOTS :: ids[i] == 0 && pools[i] == 0
    ensures ids == EmptyIds() && pools == EmptyPools()
  {
    hide EmptyIds, EmptyPools;
  }

  function EmptyPools(): (r: seq<nat>)
    ensures |r| == SLOTS && forall i :: 0 <= i < SLOTS ==> r[i] == 0
  {
    seq(SLOTS, _ => 0)
  }

  predicate Shape(l: Ledger) {
    && |l.ids| == SLOTS && |l.pools| == SLOTS
    && |l.poolAccepted| == POOLS && |l.poolRejected| == POOLS && |l.poolSubmitted| == POOLS
  }

  function Slot(next: nat): (r: nat)
    ensures r < SLOTS
  {
    next % SLOTS
  }

  /** The first slot holding the id; the number of slots when there is none. */
  function Find(ids: seq<int>, id: int): (r: nat)
    ensures r <= |ids| && (r < |ids| ==> ids[r] == id) && id !in ids[..r]
  {
    if ids == [] || ids[0] == id then 0
    else
      var r := Find(ids[1..], id);
      assert ids[..r + 1] == [ids[0]] + ids[1..][..r];
      r + 1
  }

  lemma {:induction false} FoundIfIn(ids: seq<int>, id: int)
    ensures Find(ids, id) < |ids| <==> id in ids
  {
    if ids != [] {
      FoundIfIn(ids[1..], id);
    }
  }

  function Bumped(counts: seq<nat>, pool: nat): seq<nat> {
    if pool < |counts| then counts[pool := counts[pool] + 1] else counts
  }

  function MarkId(l: Ledger, id: int, pool: nat): Ledger
    requires Shape(l)
  {
    var slot := Slot(l.next);
    l.(ids := l.ids[slot := id], pools := l.pools[slot := pool], next := l.next + 1,
       marked := l.marked + 1, overwritten := l.overwritten + if l.ids[slot] != 0 then 1 else 0)
  }

  /** A reply takes the id out of its slot and moves a counter; the fast path looks at no id up to 5. */
  predicate Hits(l: Ledger, id: int, fast: bool)
    requires Shape(l)
  {
    (fast ==> id > 5) && Find(l.ids, id) < SLOTS
  }

  function Replied(l: Ledger, id: int, success: bool, fast: bool): Ledger
    requires Shape(l)
  {
    if !Hits(l, id, fast) then l
    else
      var slot := Find(l.ids, id);
      var pool := l.pools[slot];
      var t := l.(ids := l.ids[slot := 0], pools := l.pools[slot := 0],
                 phantom := l.phantom + if id == 0 then 1 else 0);
      if success
      then t.(accepted := l.accepted + 1, poolAccepted := Bumped(l.poolAccepted, pool))
      else t.(rejected := l.rejected + 1, poolRejected := Bumped(l.poolRejected, pool))
  }

  predicate Enabled(l: Ledger, a: Action) {
    match a
    case Spend => true
    case Mark(pool) => l.waiting.Nobody? && pool < POOLS
    case Count => l.waiting.Pool?
    case Reply(_, _, _) => true
  }

  function Step(l: Ledger, a: Action): Ledger
    requires Shape(l) && Enabled(l, a)
  {
    match a
    case Spend => l.(uid := l.uid + 1)
    case Mark(pool) => MarkId(l, l.uid, pool).(uid := l.uid + 1, waiting := Pool(pool))
    case Count => l.(submitted := l.submitted + 1, poolSubmitted := Bumped(l.poolSubmitted, l.waiting.pool),
                        waiting := Nobody)
    case Reply(id, success, fast) => Replied(l, id, success, fast)
  }

  ghost predicate Runs(l: Ledger, actions: seq<Action>)
    requires Shape(l)
    decreases |actions|
  {
    actions == [] || (Enabled(l, actions[0]) && Shape(Step(l, actions[0])) && Runs(Step(l, actions[0]), actions[1..]))
  }

  ghost function After(l: Ledger, actions: seq<Action>): (r: Ledger)
    requires Shape(l) && Runs(l, actions)
    ensures Shape(r)
    decreases |actions|
  {
    if actions == [] then l else After(Step(l, actions[0]), actions[1..])
  }

  // ----- conservation

  function Used(ids: seq<int>): nat {
    if ids == [] then 0 else (if ids[0] != 0 then 1 else 0) + Used(ids[1..])
  }

  function Sum(counts: seq<nat>): nat {
    if counts == [] then 0 else counts[0] + Sum(counts[1..])
  }

  lemma {:induction false} UsedUpdate(ids: seq<int>, i: nat, id: int)
    requires i < |ids|
    ensures Used(ids[i := id]) + (if ids[i] != 0 then 1 else 0) == Used(ids) + if id != 0 then 1 else 0
  {
    if i == 0 {
      assert ids[i := id][1..] == ids[1..];
    } else {
      assert ids[i := id][1..] == ids[1..][i - 1 := id];
      UsedUpdate(ids[1..], i - 1, id);
    }
  }

  lemma {:induction false} SumBumped(counts: seq<nat>, pool: nat)
    requires pool < |counts|
    ensures Sum(Bumped(counts, pool)) == Sum(counts) + 1
  {
    if pool == 0 {
      assert Bumped(counts, pool)[1..] == counts[1..];
    } else {
      assert Bumped(counts, pool)[1..] == Bumped(counts[1..], pool - 1);
      SumBumped(counts[1..], pool - 1);
    }
  }

  predicate Conserved(l: Ledger) {
    && l.accepted + l.rejected + Used(l.ids) + l.overwritten == l.marked + l.phantom
    && l.submitted + (if l.waiting.Pool? then 1 else 0) == l.marked
  }

  predicate SumsAgree(l: Ledger) {
    && l.accepted == Sum(l.poolAccepted) && l.rejected == Sum(l.poolRejected) && l.submitted == Sum(l.poolSubmitted)
    && (forall i :: 0 <= i < |l.pools| ==> l.pools[i] < POOLS)
    && (l.waiting.Pool? ==> l.waiting.pool < POOLS)
  }

  /** Ids in the ring are ids that were handed out, each in one slot. */
  predicate Issued(l: Ledger) {
    && l.uid >= FIRST_UID
    && (forall i :: 0 <= i < |l.ids| ==> l.ids[i] == 0 || FIRST_UID <= l.ids[i] < l.uid)
    && (forall i, j :: 0 <= i < j < |l.ids| && l.ids[i] != 0 ==> l.ids[i] != l.ids[j])
  }

  predicate Inv(l: Ledger) {
    Shape(l) && Conserved(l) && SumsAgree(l) && Issued(l)
  }

  lemma StartInv()
    ensures Inv(Start())
  {
    hide EmptyIds, EmptyPools;
    StartShape();
    StartBalances();
    ThreeZeros();
    hide Sum, Conserved, Shape;
    assert Issued(Start()) && SumsAgree(Start());
  }

  lemma StartShape()
    ensures Shape(Start())
  {
    hide EmptyIds, EmptyPools;
  }

  lemma StartBalances()
    ensures Conserved(Start())
  {
    hide EmptyIds, EmptyPools, Used;
    EmptyUsed();
  }

  lemma EmptyUsed()
    ensures Used(EmptyIds()) == 0
  {
    hide EmptyIds, Used;
    NothingUsed(EmptyIds());
  }

  lemma ThreeZeros()
    ensures Sum([0, 0, 0]) == 0
  {
    assert [0, 0, 0][1..] == [0, 0];
    assert [0, 0][1..] == [0];
  }

  lemma {:induction false} NothingUsed(ids: seq<int>)
    requires forall i :: 0 <= i < |ids| ==> ids[i] == 0
    ensures Used(ids) == 0
  {
    if ids != [] {
      NothingUsed(ids[1..]);
    }
  }

  lemma MarkKeepsInv(l: Ledger, pool: nat)
    requires Inv(l) && l.waiting.Nobody? && pool < POOLS
    ensures Inv(Step(l, Mark(pool)))
  {
    UsedUpdate(l.ids, Slot(l.next), l.uid);
    hide Used, Sum, Slot;
  }

  lemma ReplyKeepsInv(l: Ledger, id: int, success: bool, fast: bool)
    requires Inv(l)
    ensures Inv(Replied(l, id, success, fast))
  {
    if Hits(l, id, fast) {
      ReplyBalances(l, id, success, fast);
      ReplySums(l, id, success, fast);
      ReplyIssues(l, id, success, fast);
    }
  }

  lemma ReplyBalances(l: Ledger, id: int, success: bool, fast: bool)
    requires Shape(l) && Conserved(l) && Hits(l, id, fast)
    ensures Conserved(Replied(l, id, success, fast)) && Shape(Replied(l, id, success, fast))
  {
    UsedUpdate(l.ids, Find(l.ids, id), 0);
    hide Used, Find;
  }

  lemma ReplySums(l: Ledger, id: int, success: bool, fast: bool)
    requires Shape(l) && SumsAgree(l) && Hits(l, id, fast)
    ensures SumsAgree(Replied(l, id, success, fast))
  {
    var slot := Find(l.ids, id);
    SumBumped(l.poolAccepted, l.pools[slot]);
    SumBumped(l.poolRejected, l.pools[slot]);
    hide Sum, Bumped, Find;
  }

  lemma ReplyIssues(l: Ledger, id: int, success: bool, fast: bool)
    requires Shape(l) && Issued(l) && Hits(l, id, fast)
    ensures Issued(Replied(l, id, success, fast))
  {
    hide Find, Bumped;
  }

  lemma CountKeepsInv(l: Ledger)
    requires Inv(l) && l.waiting.Pool?
    ensures Inv(Step(l, Count))
  {
    SumBumped(l.poolSubmitted, l.waiting.pool);
    hide Used, Sum;
  }

  lemma StepKeepsInv(l: Ledger, a: Action)
    requires Inv(l) && Enabled(l, a)
    ensures Inv(Step(l, a))
  {
    match a
    case Spend => {}
    case Mark(pool) => MarkKeepsInv(l, pool);
    case Count => CountKeepsInv(l);
    case Reply(id, success, fast) => ReplyKeepsInv(l, id, success, fast);
  }

  /** CONSERVATION over every run: accepted, rejected, pending and overwritten shares make up the
      marked ones, plus the replies that matched an empty slot; the counters agree with the sums
      over the pools. */
  lemma {:induction false} RunConserves(l: Ledger, actions: seq<Action>)
    requires Inv(l) && Runs(l, actions)
    ensures Inv(After(l, actions))
    decreases |actions|
  {
    if actions != [] {
      StepKeepsInv(l, actions[0]);
      RunConserves(Step(l, actions[0]), actions[1..]);
    }
  }

  // ----- no phantom replies

  /** A reply matches an empty slot exactly when it has id 0, comes on the slow path, and some slot is empty. */
  lemma PhantomIff(l: Ledger, id: int, success: bool, fast: bool)
    requires Inv(l)
    ensures Replied(l, id, success, fast).phantom == l.phantom + 1 <==> id == 0 && !fast && Used(l.ids) < SLOTS
    ensures Replied(l, id, success, fast).phantom <= l.phantom + 1
  {
    EmptyIff(l.ids);
    FoundIfIn(l.ids, 0);
  }

  lemma {:induction false} EmptyIff(ids: seq<int>)
    ensures Used(ids) <= |ids|
    ensures Used(ids) < |ids| <==> 0 in ids
  {
    if ids != [] {
      EmptyIff(ids[1..]);
    }
  }

  /** With no slow reply to id 0, the plain balance holds. */
  lemma {:induction false} NoPhantoms(l: Ledger, actions: seq<Action>)
    requires Inv(l) && Runs(l, actions)
    requires forall a :: a in actions && a.Reply? ==> a.id != 0 || a.fast
    ensures After(l, actions).phantom == l.phantom
    decreases |actions|
  {
    if actions != [] {
      StepKeepsInv(l, actions[0]);
      assert actions[0] in actions;
      NoPhantoms(Step(l, actions[0]), actions[1..]);
    }
  }

  /** THE BALANCE: from the start, with no slow reply to id 0 and no share between its mark and its
      count, accepted + rejected + pending + overwritten is what was submitted. */
  lemma Balance(actions: seq<Action>)
    requires Shape(Start()) && Runs(Start(), actions)
    requires forall a :: a in actions && a.Reply? ==> a.id != 0 || a.fast
    requires After(Start(), actions).waiting.Nobody?
    ensures var l := After(Start(), actions);
            && l.accepted + l.rejected + Used(l.ids) + l.overwritten == l.submitted
            && l.accepted == Sum(l.poolAccepted) && l.rejected == Sum(l.poolRejected)
            && l.submitted == Sum(l.poolSubmitted)
  {
    StartInv();
    RunConserves(Start(), actions);
    NoPhantoms(Start(), actions);
  }

  /** One slow reply to id 0, before any share, is counted as an accepted share. */
  lemma PhantomShare()
    ensures Shape(Start())
    ensures Replied(Start(), 0, true, false).accepted == 1 && Replied(Start(), 0, true, false).submitted == 0
  {
    StartInv();
    EmptyIff(Start().ids);
    assert Start().ids[0] == 0;
    PhantomIff(Start(), 0, true, false);
  }

  // ----- at most once

  ghost function CountedReplies(l: Ledger, actions: seq<Action>, id: int): nat
    requires Shape(l) && Runs(l, actions)
    decreases |actions|
  {
    if actions == [] then 0
    else
      (if actions[0].Reply? && actions[0].id == id && Hits(l, id, actions[0].fast) then 1 else 0)
      + CountedReplies(Step(l, actions[0]), actions[1..], id)
  }

  lemma HitTakes(l: Ledger, id: int, success: bool, fast: bool)
    requires Inv(l) && id != 0 && Hits(l, id, fast)
    ensures id !in Replied(l, id, success, fast).ids && id < l.uid
  {
    var slot := Find(l.ids, id);
    hide Find, Used, Sum, Bumped;
    var ids := l.ids[slot := 0];
    forall i | 0 <= i < SLOTS ensures ids[i] != id {
    }
  }

  /** Whether a reply to this id can still be counted. */
  predicate Open(l: Ledger, id: int) {
    id in l.ids || id >= l.uid
  }

  lemma OpenStays(l: Ledger, a: Action, id: int)
    requires Inv(l) && Enabled(l, a) && id != 0 && !Open(l, id)
    ensures !Open(Step(l, a), id)
  {
    match a
    case Spend => {}
    case Mark(pool) => {}
    case Count => {}
    case Reply(other, success, fast) => {}
  }

  /** EACH ID IS COUNTED AT MOST ONCE, across both reply paths, whatever replies come. */
  lemma {:induction false} CountedAtMostOnce(l: Ledger, actions: seq<Action>, id: int)
    requires Inv(l) && Runs(l, actions) && id != 0
    ensures CountedReplies(l, actions, id) <= if Open(l, id) then 1 else 0
    decreases |actions|
  {
    if actions != [] {
      var a := actions[0];
      var next := Step(l, a);
      StepKeepsInv(l, a);
      CountedAtMostOnce(next, actions[1..], id);
      if !Open(l, id) {
        OpenStays(l, a, id);
        NotOpenNoHit(l, id);
      } else if a.Reply? && a.id == id && Hits(l, id, a.fast) {
        HitTakes(l, id, a.success, a.fast);
        assert !Open(next, id);
      }
    }
  }

  lemma NotOpenNoHit(l: Ledger, id: int)
    requires Shape(l) && !Open(l, id)
    ensures !Hits(l, id, true) && !Hits(l, id, false)
  {
  }

  // ----- a reply in time is counted

  function Marks(actions: seq<Action>): nat {
    if actions == [] then 0 else (if actions[0].Mark? then 1 else 0) + Marks(actions[1..])
  }

  /** `age` marks after its own, the id still stands in its slot. */
  predicate Stands(l: Ledger, id: int, age: nat)
    requires Shape(l)
  {
    age < l.next && l.ids[Slot(l.next - 1 - age)] == id
  }

  lemma SlotsDiffer(next: nat, age: nat)
    requires age + 1 < SLOTS && age < next
    ensures Slot(next) != Slot(next - 1 - age)
  {
  }

  lemma StandsStep(l: Ledger, a: Action, id: int, age: nat)
    requires Inv(l) && Enabled(l, a) && id != 0 && Stands(l, id, age)
    requires a.Mark? ==> age + 1 < SLOTS
    requires a.Reply? ==> a.id != id
    ensures Shape(Step(l, a)) && Stands(Step(l, a), id, if a.Mark? then age + 1 else age)
  {
    if a.Mark? {
      SlotsDiffer(l.next, age);
    }
    hide Slot, Used, Sum, Bumped;
  }

  predicate NoReplyTo(actions: seq<Action>, id: int) {
    forall i :: 0 <= i < |actions| && actions[i].Reply? ==> actions[i].id != id
  }

  lemma {:induction false} StaysStanding(l: Ledger, actions: seq<Action>, id: int, age: nat)
    requires Inv(l) && Runs(l, actions) && id != 0 && Stands(l, id, age)
    requires age + Marks(actions) < SLOTS && NoReplyTo(actions, id)
    ensures Inv(After(l, actions)) && Stands(After(l, actions), id, age + Marks(actions))
    decreases |actions|
  {
    InvShape(l);
    hide Inv, Stands, Step, Enabled, Runs, After, Shape, Marks, NoReplyTo;
    if actions == [] {
      NothingRuns(l);
    } else {
      FirstStands(l, actions, id, age);
      StaysStanding(Step(l, actions[0]), actions[1..], id, if actions[0].Mark? then age + 1 else age);
    }
  }

  lemma NothingRuns(l: Ledger)
    requires Shape(l)
    ensures Runs(l, []) && After(l, []) == l && Marks([]) == 0
  {
  }

  lemma FirstStands(l: Ledger, actions: seq<Action>, id: int, age: nat)
    requires actions != [] && Inv(l) && Runs(l, actions) && id != 0 && Stands(l, id, age)
    requires age + Marks(actions) < SLOTS && NoReplyTo(actions, id)
    ensures var a, rest := actions[0], actions[1..];
            && Enabled(l, a) && Inv(Step(l, a)) && Shape(Step(l, a)) && Runs(Step(l, a), rest) && NoReplyTo(rest, id)
            && Stands(Step(l, a), id, if a.Mark? then age + 1 else age)
            && After(l, actions) == After(Step(l, a), rest)
            && Marks(actions) == (if a.Mark? then 1 else 0) + Marks(rest)
  {
    InvShape(l);
    hide Inv, Stands, Step, Enabled, Runs, After, Shape, Marks, NoReplyTo;
    RestQuiet(actions, id);
    RestRuns(l, actions);
    StepKeepsInv(l, actions[0]);
    StandsStep(l, actions[0], id, age);
  }

  lemma RestQuiet(actions: seq<Action>, id: int)
    requires actions != [] && NoReplyTo(actions, id)
    ensures NoReplyTo(actions[1..], id) && (actions[0].Reply? ==> actions[0].id != id)
    ensures Marks(actions) == (if actions[0].Mark? then 1 else 0) + Marks(actions[1..])
  {
  }

  lemma InvShape(l: Ledger)
    requires Inv(l)
    ensures Shape(l)
  {
  }

  lemma RestRuns(l: Ledger, actions: seq<Action>)
    requires actions != [] && Shape(l) && Runs(l, actions)
    ensures Enabled(l, actions[0]) && Shape(Step(l, actions[0])) && Runs(Step(l, actions[0]), actions[1..])
    ensures After(l, actions) == After(Step(l, actions[0]), actions[1..])
  {
    hide Step, Shape, Enabled;
  }

  /** A marked share that gets no reply keeps its slot through the next 15 marks, so a reply within
      them is counted. */
  lemma InTimeIsCounted(l: Ledger, actions: seq<Action>, id: int, age: nat, fast: bool)
    requires Inv(l) && Runs(l, actions) && id >= FIRST_UID && Stands(l, id, age)
    requires age + Marks(actions) < SLOTS && NoReplyTo(actions, id)
    ensures Hits(After(l, actions), id, fast)
  {
    hide Inv, Stands, Hits, NoReplyTo, Marks;
    InvShape(l);
    StaysStanding(l, actions, id, age);
    StandingIsHit(After(l, actions), id, age + Marks(actions), fast);
  }

  lemma StandingIsHit(l: Ledger, id: int, age: nat, fast: bool)
    requires Shape(l) && id >= FIRST_UID && Stands(l, id, age)
    ensures Hits(l, id, fast)
  {
    hide Find, Slot;
    assert l.ids[Slot(l.next - 1 - age)] in l.ids;
    FoundIfIn(l.ids, id);
  }

  // ----- the counters as they stand

  class ShareAccounts {
    const ids: array<int>
    const pools: array<nat>
    var next: nat
    var uid: int
    var accepted: nat
    var rejected: nat
    var submitted: nat
    const poolAccepted: array<nat>
    const poolRejected: array<nat>
    const poolSubmitted: array<nat>
    ghost var ledger: Ledger

    ghost predicate Valid()
      reads this, ids, pools, poolAccepted, poolRejected, poolSubmitted
    {
      && Inv(ledger)
      && poolAccepted != poolRejected && poolAccepted != poolSubmitted && poolRejected != poolSubmitted
      && pools != poolAccepted && pools != poolRejected && pools != poolSubmitted
      && ids[..] == ledger.ids && pools[..] == ledger.pools && next == ledger.next && uid == ledger.uid
      && accepted == ledger.accepted && rejected == ledger.rejected && submitted == ledger.submitted
      && poolAccepted[..] == ledger.poolAccepted && poolRejected[..] == ledger.poolRejected
      && poolSubmitted[..] == ledger.poolSubmitted
    }

    constructor ()
      ensures Valid() && ledger == Start()
    {
      ids, pools := new int[SLOTS](_ => 0), new nat[SLOTS](_ => 0);
      poolAccepted, poolRejected := new nat[POOLS] [0, 0, 0], new nat[POOLS] [0, 0, 0];
      poolSubmitted := new nat[POOLS] [0, 0, 0];
      next, uid := 0, FIRST_UID;
      accepted, rejected, submitted := 0, 0, 0;
      ledger := Start();
      new;
      hide EmptyIds, EmptyPools, Inv;
      StartInv();
      AllEmpty(ids[..], pools[..]);
    }

    /** `next_uid` for a request that is not marked. */
    method SpendUid() returns (id: int)
      requires Valid()
      modifies this
      ensures Valid() && id == old(uid) && ledger == Step(old(ledger), Spend)
    {
      id := uid;
      uid := uid + 1;
      ledger := ledger.(uid := uid);
    }

    /** `next_uid`, a write that succeeds, and `mark_share_request`. */
    method MarkShare(pool: nat) returns (id: int)
      requires Valid() && ledger.waiting.Nobody? && pool < POOLS
      modifies this, ids, pools
      ensures Valid() && id == old(uid) && ledger == Step(old(ledger), Mark(pool))
    {
      MarkKeepsInv(ledger, pool);
      hide Inv;
      id := uid;
      uid := uid + 1;
      var slot := Slot(next);
      next := next + 1;
      ids[slot] := id;
      pools[slot] := pool;
      ledger := Step(ledger, Mark(pool));
    }

    method CountShare(pool: nat)
      requires Valid() && ledger.waiting == Pool(pool)
      modifies this, poolSubmitted
      ensures Valid() && ledger == Step(old(ledger), Count)
    {
      CountKeepsInv(ledger);
      submitted := submitted + 1;
      Bump(poolSubmitted, pool);
      ledger := Step(ledger, Count);
    }

    method Bump(counts: array<nat>, pool: nat)
      modifies counts
      ensures counts[..] == Bumped(old(counts[..]), pool)
    {
      if pool < counts.Length {
        counts[pool] := counts[pool] + 1;
      }
    }

    /** `take_share_request`: the first slot with the id is emptied. */
    method Take(id: int) returns (found: bool, pool: nat)
      requires ids.Length == SLOTS && pools.Length == SLOTS
      modifies ids, pools
      ensures var slot := Find(old(ids[..]), id);
              && (found <==> slot < SLOTS)
              && (!found ==> ids[..] == old(ids[..]) && pools[..] == old(pools[..]))
              && (found ==> pool == old(pools[..])[slot])
              && (found ==> ids[..] == old(ids[..])[slot := 0] && pools[..] == old(pools[..])[slot := 0])
    {
      found, pool := false, 0;
      for i := 0 to SLOTS
        invariant id !in ids[..i]
        invariant ids[..] == old(ids[..]) && pools[..] == old(pools[..])
      {
        if ids[i] == id {
          FindIs(ids[..], id, i);
          ids[i] := 0;
          pool := pools[i];
          pools[i] := 0;
          found := true;
          return;
        }
        assert ids[..i + 1] == ids[..i] + [ids[i]];
      }
      FindIs(ids[..], id, SLOTS);
    }

    /** What both reply paths do with a share id; `fast` tells which one. */
    method HandleReply(id: int, success: bool, fast: bool) returns (counted: bool)
      requires Valid()
      modifies this, ids, pools, poolAccepted, poolRejected
      ensures Valid() && ledger == Step(old(ledger), Reply(id, success, fast))
      ensures counted <==> Hits(old(ledger), id, fast)
    {
      ReplyKeepsInv(ledger, id, success, fast);
      ReplyIs(ledger, id, success, fast);
      hide Inv, Find, Bumped, Replied, Hits;
      if fast && id <= 5 {
        return false;
      }
      var pool;
      counted, pool := Take(id);
      ledger := Replied(ledger, id, success, fast);
      if counted {
        CountReply(success, pool);
      }
    }

    /** The counters a matched reply moves. */
    method CountReply(success: bool, pool: nat)
      requires poolAccepted != poolRejected
      modifies this`accepted, this`rejected, poolAccepted, poolRejected
      ensures accepted == old(accepted) + (if success then 1 else 0)
      ensures rejected == old(rejected) + (if success then 0 else 1)
      ensures poolAccepted[..] == if success then Bumped(old(poolAccepted[..]), pool) else old(poolAccepted[..])
      ensures poolRejected[..] == if success then old(poolRejected[..]) else Bumped(old(poolRejected[..]), pool)
    {
      hide Bumped;
      if success {
        accepted := accepted + 1;
        Bump(poolAccepted, pool);
      } else {
        rejected := rejected + 1;
        Bump(poolRejected, pool);
      }
    }
  }

  /** What a reply does to each part of the ledger. */
  lemma ReplyIs(l: Ledger, id: int, success: bool, fast: bool)
    requires Inv(l)
    ensures Shape(l) && Shape(Replied(l, id, success, fast))
    ensures fast && id <= 5 ==> !Hits(l, id, fast)
    ensures !(fast && id <= 5) ==> (Hits(l, id, fast) <==> Find(l.ids, id) < SLOTS)
    ensures !Hits(l, id, fast) ==> Replied(l, id, success, fast) == l
    ensures Hits(l, id, fast) ==>
              var t, slot := Replied(l, id, success, fast), Find(l.ids, id);
              && t.ids == l.ids[slot := 0] && t.pools == l.pools[slot := 0]
              && t.next == l.next && t.uid == l.uid && t.submitted == l.submitted && t.poolSubmitted == l.poolSubmitted
              && t.accepted == l.accepted + (if success then 1 else 0)
              && t.rejected == l.rejected + (if success then 0 else 1)
              && t.poolAccepted == (if success then Bumped(l.poolAccepted, l.pools[slot]) else l.poolAccepted)
              && t.poolRejected == (if success then l.poolRejected else Bumped(l.poolRejected, l.pools[slot]))
  {
    ReplyKeepsInv(l, id, success, fast);
    hide Find, Bumped, Conserved, SumsAgree, Issued;
  }

  lemma {:induction false} FindIs(ids: seq<int>, id: int, i: nat)
    requires i <= |ids| && id !in ids[..i] && (i < |ids| ==> ids[i] == id)
    ensures Find(ids, id) == i
  {
    if i > 0 {
      assert ids[0] in ids[..i];
      assert ids[1..][..i - 1] == ids[..i][1..];
      FindIs(ids[1..], id, i - 1);
    }
  }
}

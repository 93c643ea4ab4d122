/** Whose share a reply counts: over every run, the pool whose share was marked under the reply's id. */
module ShareOwners {
  import opened Shares

  /** The pool whose share some action of the run marks under this id. */
  ghost function MarkedFor(l: Ledger, actions: seq<Action>, id: int): Waiting
    requires Shape(l) && Runs(l, actions)
    decreases |actions|
  {
    if actions == [] then Nobody
    else if actions[0].Mark? && l.uid == id then Pool(actions[0].pool)
    else MarkedFor(Step(l, actions[0]), actions[1..], id)
  }

  /** Ids are handed out upwards. */
  lemma {:induction false} OldIdsAreNotMarked(l: Ledger, actions: seq<Action>, id: int)
    requires Shape(l) && Runs(l, actions) && id < l.uid
    ensures MarkedFor(l, actions, id) == Nobody
    decreases |actions|
  {
    if actions != [] {
      UidGrows(l, actions[0]);
      hide Step, Enabled, Shape;
      OldIdsAreNotMarked(Step(l, actions[0]), actions[1..], id);
    }
  }

  lemma UidGrows(l: Ledger, a: Action)
    requires Shape(l) && Enabled(l, a)
    ensures Step(l, a).uid == l.uid + if a.Spend? || a.Mark? then 1 else 0
  {
  }

  /** Every id in the ring stands beside the pool it is known to belong to. */
  ghost predicate Owned(l: Ledger, owners: map<int, nat>)
    requires Shape(l)
  {
    forall i | 0 <= i < SLOTS && l.ids[i] != 0 :: l.ids[i] in owners && owners[l.ids[i]] == l.pools[i]
  }

  function Known(owners: map<int, nat>, l: Ledger, a: Action): map<int, nat> {
    if a.Mark? then owners[l.uid := a.pool] else owners
  }

  lemma MarkKeepsOwners(l: Ledger, pool: nat, owners: map<int, nat>)
    requires Inv(l) && l.waiting.Nobody? && pool < POOLS && Owned(l, owners)
    ensures Shape(Step(l, Mark(pool))) && Owned(Step(l, Mark(pool)), owners[l.uid := pool])
  {
    hide Used, Sum, Slot;
    assert forall i | 0 <= i < SLOTS :: l.ids[i] == 0 || l.ids[i] < l.uid;
  }

  lemma ReplyKeepsOwners(l: Ledger, id: int, success: bool, fast: bool, owners: map<int, nat>)
    requires Inv(l) && Owned(l, owners)
    ensures Shape(Replied(l, id, success, fast)) && Owned(Replied(l, id, success, fast), owners)
  {
    ReplyIs(l, id, success, fast);
    hide Find, Bumped, Inv, Replied, Hits;
  }

  lemma StepKeepsOwners(l: Ledger, a: Action, owners: map<int, nat>)
    requires Inv(l) && Enabled(l, a) && Owned(l, owners)
    ensures Shape(Step(l, a)) && Owned(Step(l, a), Known(owners, l, a))
  {
    match a
    case Spend => {}
    case Mark(pool) => MarkKeepsOwners(l, pool, owners);
    case Count => {}
    case Reply(id, success, fast) => ReplyKeepsOwners(l, id, success, fast, owners);
  }

  /** What is known of an id after a run. */
  ghost function OwnerAfter(owners: map<int, nat>, l: Ledger, actions: seq<Action>, id: int): Waiting
    requires Shape(l) && Runs(l, actions)
  {
    var marked := MarkedFor(l, actions, id);
    if marked.Pool? then marked else if id in owners then Pool(owners[id]) else Nobody
  }

  lemma OwnerStep(owners: map<int, nat>, l: Ledger, actions: seq<Action>, id: int)
    requires actions != [] && Shape(l) && Runs(l, actions)
    ensures OwnerAfter(owners, l, actions, id)
         == OwnerAfter(Known(owners, l, actions[0]), Step(l, actions[0]), actions[1..], id)
  {
    var a := actions[0];
    UidGrows(l, a);
    if a.Mark? && l.uid == id {
      OldIdsAreNotMarked(Step(l, a), actions[1..], id);
    }
    hide Step, Shape, Enabled;
  }

  lemma {:induction false} RunKeepsOwners(owners: map<int, nat>, l: Ledger, actions: seq<Action>, i: nat)
    requires Inv(l) && Runs(l, actions) && Owned(l, owners) && i < SLOTS
    ensures var t := After(l, actions);
            t.ids[i] != 0 ==> OwnerAfter(owners, l, actions, t.ids[i]) == Pool(t.pools[i])
    decreases |actions|
  {
    InvShape(l);
    hide Inv, Step, Enabled, Shape, Known;
    if actions != [] {
      var a := actions[0];
      RestRuns(l, actions);
      StepKeepsInv(l, a);
      StepKeepsOwners(l, a, owners);
      RunKeepsOwners(Known(owners, l, a), Step(l, a), actions[1..], i);
      OwnerStep(owners, l, actions, After(l, actions).ids[i]);
      hide OwnerAfter;
    }
  }

  /** A REPLY COUNTS FOR ITS SHARE'S POOL: after every run from the start, a reply that hits an id counts
      one accepted or one rejected share of the pool whose share was marked under that id, and of no
      other. */
  lemma ReplyCountsForItsPool(actions: seq<Action>, id: int, success: bool, fast: bool)
    requires Shape(Start()) && Runs(Start(), actions) && id != 0
    requires Hits(After(Start(), actions), id, fast)
    ensures var l, owner := After(Start(), actions), MarkedFor(Start(), actions, id);
            var t := Replied(l, id, success, fast);
            && owner.Pool? && owner.pool < POOLS
            && |t.poolAccepted| == POOLS && |t.poolRejected| == POOLS
            && (forall p | 0 <= p < POOLS ::
                  && t.poolAccepted[p] == l.poolAccepted[p] + (if success && p == owner.pool then 1 else 0)
                  && t.poolRejected[p] == l.poolRejected[p] + (if !success && p == owner.pool then 1 else 0))
  {
    StartInv();
    RunConserves(Start(), actions);
    var l := After(Start(), actions);
    NothingOwned();
    RunKeepsOwners(map[], Start(), actions, Find(l.ids, id));
    ReplyIs(l, id, success, fast);
    PoolsInRange(l, Find(l.ids, id));
    hide Find, After, Runs, Replied, MarkedFor, Inv, Owned, Hits;
  }

  lemma PoolsInRange(l: Ledger, i: nat)
    requires Inv(l) && i < SLOTS
    ensures l.pools[i] < POOLS
  {
  }

  lemma NothingOwned()
    ensures Shape(Start()) && Owned(Start(), map[])
  {
    StartInv();
  }

  /** The shares of a pool that a run marks. */
  function MarksOf(actions: seq<Action>, p: nat): nat {
    if actions == [] then 0 else (if actions[0] == Mark(p) then 1 else 0) + MarksOf(actions[1..], p)
  }

  /** EACH SHARE IS SUBMITTED FOR ITS POOL: over every run a pool's submitted counter grows by the
      pool's marked shares, the one not yet counted aside. */
  lemma {:induction false} SubmittedForItsPool(l: Ledger, actions: seq<Action>, p: nat)
    requires Inv(l) && Runs(l, actions) && p < POOLS
    ensures var t := After(l, actions);
            Inv(t) &&
            t.poolSubmitted[p] + (if t.waiting == Pool(p) then 1 else 0)
            == l.poolSubmitted[p] + (if l.waiting == Pool(p) then 1 else 0) + MarksOf(actions, p)
    decreases |actions|
  {
    InvShape(l);
    hide Inv, Enabled, Shape;
    if actions != [] {
      var a := actions[0];
      RestRuns(l, actions);
      StepKeepsInv(l, a);
      StepSubmits(l, a, p);
      hide Step;
      SubmittedForItsPool(Step(l, a), actions[1..], p);
    }
  }

  lemma StepSubmits(l: Ledger, a: Action, p: nat)
    requires Inv(l) && Enabled(l, a) && p < POOLS
    ensures var t := Step(l, a);
            && |t.poolSubmitted| == POOLS == |l.poolSubmitted|
            && t.poolSubmitted[p] + (if t.waiting == Pool(p) then 1 else 0)
               == l.poolSubmitted[p] + (if l.waiting == Pool(p) then 1 else 0) + if a == Mark(p) then 1 else 0
  {
    if a.Reply? {
      ReplyIs(l, a.id, a.success, a.fast);
    }
    hide Find, Replied, Hits, Slot;
  }
}

/** Two runs of the pipeline: one that delivers a notification to the ASIC, which shows the
    safety results are not about an idle machine, and one that shows where they stop. */
module PipelineLimits {
  import opened Basics
  import opened PipelineMachine
  import opened PipelineSafety

  /** Some run leads from `s` to `t`. */
  ghost predicate Leads(s: State, t: State) {
    Shape(s) && Shape(t) && exists trace :: After(s, trace) == Some(t)
  }

  lemma LeadsToSelf(s: State)
    requires Shape(s)
    ensures Leads(s, s)
  {
    assert After(s, []) == Some(s);
  }

  lemma {:induction false} AfterConcat(s: State, t: State, first: seq<Action>, second: seq<Action>)
    requires Shape(s) && Shape(t) && After(s, first) == Some(t)
    ensures After(s, first + second) == After(t, second)
  {
    hide Enabled, Next, Shape;
    if second == [] {
      assert first + second == first;
    } else {
      var n := |second| - 1;
      AfterConcat(s, t, first, second[..n]);
      assert (first + second)[..|first| + n] == first + second[..n];
    }
  }

  lemma LeadsTransitive(s: State, t: State, u: State)
    requires Leads(s, t) && Leads(t, u)
    ensures Leads(s, u)
  {
    hide Enabled, Next, Shape;
    var first :| After(s, first) == Some(t);
    var second :| After(t, second) == Some(u);
    AfterConcat(s, t, first, second);
    assert After(s, first + second) == Some(u);
  }

  /** What a run leads to from a reachable state is reachable: calls one after another stay within
      the runs of the machine. */
  lemma ReachableLeads(t: State, u: State)
    requires Reachable(t) && Leads(t, u)
    ensures Reachable(u)
  {
    hide Enabled, Next;
    var s, trace :| Initial(s) && After(s, trace) == Some(t);
    assert Leads(s, t);
    LeadsTransitive(s, t, u);
    ReachedFromStart(s, u);
  }

  lemma ReachedFromStart(s: State, t: State)
    requires Initial(s) && Leads(s, t)
    ensures Reachable(t)
  {
    hide Shape, Enabled, Next;
  }

  lemma LeadsOneMore(s: State, t: State, a: Action) returns (u: State)
    requires Leads(s, t) && Enabled(t, a)
    ensures u == Next(t, a) && Leads(s, u)
  {
    hide Enabled, Next;
    var trace :| After(s, trace) == Some(t);
    AfterStep(s, trace, a);
    u := Next(t, a);
    assert After(s, trace + [a]) == Some(u);
  }

  function EachPlus(epochs: seq<nat>, n: nat): seq<nat>
    requires |epochs| == POOLS
  {
    [epochs[0] + n, epochs[1] + n, epochs[2] + n]
  }

  lemma BumpOne(s0: State, s: State) returns (t: State)
    requires Leads(s0, s) && s.lock.BumpingAll? && s.lock.next < POOLS
    ensures Leads(s0, t)
    ensures t == s.(lock := BumpingAll(s.lock.next + 1),
                    poolEpoch := s.poolEpoch[s.lock.next := s.poolEpoch[s.lock.next] + 1])
  {
    t := LeadsOneMore(s0, s, Reset(BumpPool));
  }

  lemma BumpAll(s0: State, s: State) returns (t: State)
    requires Leads(s0, s) && s.lock == BumpingAll(0)
    ensures Leads(s0, t)
    ensures t == s.(lock := BumpingAll(POOLS), poolEpoch := EachPlus(s.poolEpoch, 1))
  {
    var s1 := BumpOne(s0, s);
    var s2 := BumpOne(s0, s1);
    t := BumpOne(s0, s2);
    assert t.poolEpoch == EachPlus(s.poolEpoch, 1);
  }

  /** The send path on an undisturbed pipeline: the held work of `p` reaches slot `k`. */
  lemma SendHeld(s0: State, s: State, p: nat, k: nat) returns (t: State)
    requires Leads(s0, s) && s.lock.Free? && s.building.None? && p < POOLS && k < SLOTS
    requires s.held[p].Some? && SendAllowed(s, s.held[p].value)
    ensures Leads(s0, t) && t == s.(slots := s.slots[k := s.held[p]])
  {
    var s1 := LeadsOneMore(s0, s, Job(Build(p)));
    var s2 := LeadsOneMore(s0, s1, Job(SendCheck));
    var s3 := LeadsOneMore(s0, s2, Job(SendCommit(k)));
    t := LeadsOneMore(s0, s3, Job(SendRelease));
  }

  lemma SessionOpens(s: State, x: Extranonce) returns (t: State)
    requires Initial(s) && UsableExtranonce(x)
    ensures Leads(s, t)
    ensures t == s.(sessions := s.sessions[0 := s.sessions[0].(connected := true, setupReady := true,
                                                               extranonce := x)])
  {
    assert s.rx[0] == Idle;
    LeadsToSelf(s);
    var s1 := LeadsOneMore(s, s, Setup(0, Connect));
    t := LeadsOneMore(s, s1, Setup(0, Subscribe(x)));
  }

  lemma NotifyIsQueued(s0: State, s: State) returns (t: State)
    requires Leads(s0, s) && s.rx[0].Idle? && s.queue == []
    requires s.sessions[0].connected && s.sessions[0].setupReady
    requires UsableExtranonce(s.sessions[0].extranonce) && s.sessions[0].difficulty > 0.0
    ensures Leads(s0, t)
    ensures exists w :: && t == s.(queue := [Item(w)])
                        && w.pool == 0 && w.epoch == s.epoch && w.poolEpoch == s.poolEpoch[0]
                        && w.extranonce == s.sessions[0].extranonce
  {
    var s1 := LeadsOneMore(s0, s, Enqueue(0, CaptureEpoch));
    var s2 := LeadsOneMore(s0, s1, Enqueue(0, CapturePoolEpoch));
    var s3 := LeadsOneMore(s0, s2, Enqueue(0, ReadSession(1.0, 0)));
    var w := s3.rx[0].work;
    t := LeadsOneMore(s0, s3, Enqueue(0, Push));
    assert t.rx == s.rx;
    assert t == s.(queue := [Item(w)]);
  }

  /** A run from start-up to the job task holding live work of pool 0, the table still empty. */
  lemma WorkIsHeld(s: State, x: Extranonce) returns (t: State)
    requires Initial(s) && UsableExtranonce(x) && s.sessions[0].difficulty > 0.0
    ensures Leads(s, t) && t.lock.Free? && t.building.None? && !t.paused && t.slots == NoWork(SLOTS)
    ensures t.limbo == [] && t.queue == [] && t.current == t.epoch && t.rx == s.rx
    ensures t.held[0].Some? && t.held[0].value.pool == 0 && Live(t, t.held[0].value)
    ensures t.held[0].value.extranonce == x
    ensures t.sessions[0].connected && t.sessions[0].extranonce == x
  {
    assert s.rx[0] == Idle;
    var s1 := SessionOpens(s, x);
    var s2 := NotifyIsQueued(s, s1);
    var s3 := LeadsOneMore(s, s2, Job(Receive));
    t := LeadsOneMore(s, s3, Job(ApplyIncoming));
  }

  /** From start-up the machine can carry a notification all the way to a slot. */
  lemma DeliveryIsPossible(s: State, x: Extranonce) returns (t: State)
    requires Initial(s) && UsableExtranonce(x) && s.sessions[0].difficulty > 0.0
    ensures Reachable(t) && t.lock.Free? && t.slots[0].Some?
    ensures t.slots[0].value.pool == 0 && t.slots[0].value.extranonce == x
  {
    LeadsToSelf(s);
    var s1 := WorkIsHeld(s, x);
    t := SendHeld(s, s1, 0, 0);
  }

  /** A second subscribe reply with another extranonce, while that work is held, leaves live work
      that disagrees with its session. */
  lemma SecondReply(s: State, x: Extranonce, y: Extranonce) returns (t: State)
    requires Initial(s) && UsableExtranonce(x) && UsableExtranonce(y) && x != y && s.sessions[0].difficulty > 0.0
    ensures Reachable(t) && Inv(t) && t.rx[0].Idle? && t.held[0].Some? && Live(t, t.held[0].value)
    ensures !WorksOk(WithExtranonce(t, 0, y))
    ensures var u := WithExtranonce(t, 0, y); !Matches(u.sessions[0], t.held[0].value)
  {
    t := WorkIsHeld(s, x);
    ReachedFromStart(s, t);
    ReachableInv(t);
    assert Holds(t, t.held[0].value);
    SubscribeReplyIff(t, 0, y);
  }
}

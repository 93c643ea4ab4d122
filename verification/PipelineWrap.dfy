/** Where epoch safety stops: epochs are compared as 32-bit words, and 2^32 resets bring an old
    word back. */
module PipelineWrap {
  import opened Basics
  import opened PipelineMachine
  import opened PipelineSafety
  import opened PipelineLimits
  import opened PipelineEffects

  /** After `n` global resets one after the other. */
  ghost function AfterResets(s: State, n: nat): (t: State)
    requires CanReset(s, None)
    ensures Shape(t)
  {
    if n == 0 then s
    else s.(epoch := s.epoch + n, poolEpoch := EachPlus(s.poolEpoch, n), queue := [ResetAllMarker],
              slots := NoWork(SLOTS))
  }

  lemma {:induction false} ManyResets(s0: State, s: State, n: nat)
    requires Leads(s0, s) && CanReset(s, None)
    ensures Leads(s0, AfterResets(s, n))
  {
    if n > 0 {
      ManyResets(s0, s, n - 1);
      OneMoreReset(s, n);
      hide Leads, AfterResets, ResetAllEffect, CanReset;
      ResetAllLeads(s0, AfterResets(s, n - 1), None);
    }
  }

  lemma OneMoreReset(s: State, n: nat)
    requires CanReset(s, None) && n > 0
    ensures CanReset(AfterResets(s, n - 1), None)
    ensures ResetAllEffect(AfterResets(s, n - 1), None) == AfterResets(s, n)
  {
    assert n == 1 ==> AfterResets(s, 0) == s;
  }

  /** The limit of epoch safety: from start-up a run leads to work in the ASIC table whose epochs look
      current as words and are 2^32 resets old. */
  lemma StaleAfterWrap(s: State, x: Extranonce) returns (t: State)
    requires Initial(s) && UsableExtranonce(x) && s.sessions[0].difficulty > 0.0
    ensures Reachable(t) && t.lock.Free? && t.slots[0].Some?
    ensures var w := t.slots[0].value;
            WordLive(t, w) && !Live(t, w) && t.epoch == w.epoch + WORD && t.poolEpoch[w.pool] == w.poolEpoch + WORD
  {
    var s1 := WorkIsHeld(s, x);
    ManyResets(s, s1, WORD);
    Wrapped(s1);
    hide Leads, Initial, SendAllowed, AfterResets, WordLive, Live;
    t := SendHeld(s, AfterResets(s1, WORD), 0, 0);
    ReachedFromStart(s, t);
    SameEpochs(AfterResets(s1, WORD), t, s1.held[0].value);
  }

  /** After 2^32 resets the words are what they were. */
  lemma Wrapped(s: State)
    requires CanReset(s, None) && s.current == s.epoch && !s.paused && s.building.None?
    requires s.held[0].Some? && s.held[0].value.pool == 0 && Live(s, s.held[0].value)
    ensures var t, w := AfterResets(s, WORD), s.held[0].value;
            && t.lock.Free? && t.building.None? && t.held == s.held && SendAllowed(t, w)
            && WordLive(t, w) && !Live(t, w) && t.epoch == w.epoch + WORD && t.poolEpoch[0] == w.poolEpoch + WORD
  {
  }

  lemma SameEpochs(s: State, t: State, w: Work)
    requires Shape(s) && Shape(t) && t.epoch == s.epoch && t.poolEpoch == s.poolEpoch && w.pool < POOLS
    ensures WordLive(s, w) == WordLive(t, w) && Live(s, w) == Live(t, w)
  {
  }
}

/** Small values and functions shared by the other modules. */
module Basics {

  datatype Option<+T> = None | Some(value: T)

  /** `strchr` as an index: where `ch` stands in `s` from `i` on. */
  function IndexFrom(s: string, ch: char, i: nat): (r: Option<nat>)
    requires i <= |s|
    ensures r.Some? ==> i <= r.value < |s| && s[r.value] == ch && forall k | i <= k < r.value :: s[k] != ch
    ensures r.None? ==> forall k | i <= k < |s| :: s[k] != ch
    decreases |s| - i
  {
    if i == |s| then None else if s[i] == ch then Some(i) else IndexFrom(s, ch, i + 1)
  }

  function Abs(x: real): real {
    if x < 0.0 then -x else x
  }
}

/** "Since" over an event log: some good event happened, and nothing reset it afterwards. */
module Temporal {
  ghost predicate Since<T>(log: seq<T>, good: T -> bool, reset: T -> bool) {
    exists k :: 0 <= k < |log| && SinceAt(log, good, reset, k)
  }

  ghost predicate SinceAt<T>(log: seq<T>, good: T -> bool, reset: T -> bool, k: nat)
    requires k < |log|
  {
    good(log[k]) && forall j :: k < j < |log| ==> !reset(log[j])
  }

  lemma SinceSnoc<T>(log: seq<T>, e: T, good: T -> bool, reset: T -> bool)
    ensures Since(log + [e], good, reset) <==> good(e) || (!reset(e) && Since(log, good, reset))
  {
    var longer := log + [e];
    if good(e) {
      assert SinceAt(longer, good, reset, |log|);
    } else {
      if Since(longer, good, reset) {
        var k :| 0 <= k < |longer| && SinceAt(longer, good, reset, k);
        assert !reset(longer[|log|]);
        forall j | k < j < |log| ensures !reset(log[j]) { assert log[j] == longer[j]; }
        assert SinceAt(log, good, reset, k);
      }
      if !reset(e) && Since(log, good, reset) {
        var k :| 0 <= k < |log| && SinceAt(log, good, reset, k);
        assert SinceAt(longer, good, reset, k);
      }
    }
  }
}

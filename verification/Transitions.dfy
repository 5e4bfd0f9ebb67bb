/** Flags over time, and log lines written only when one changes. */
module Transitions {

  /**
   The changes recorded of a flag that starts out false: they alternate, the first is to true, and the
   flag has the value of the last.
   */
  predicate Alternating(changes: seq<bool>, flag: bool) {
    && (forall i :: 0 <= i < |changes| ==> changes[i] == (i % 2 == 0))
    && flag == (|changes| % 2 == 1)
  }

  /** Recording a new value of the flag, if it is one. */
  function Record(changes: seq<bool>, flag: bool, now: bool): seq<bool> {
    if flag == now then changes else changes + [now]
  }

  lemma RecordAlternates(changes: seq<bool>, flag: bool, now: bool)
    requires Alternating(changes, flag)
    ensures Alternating(Record(changes, flag, now), now)
  {
  }

  /** The value that the `i`-th change replaced. */
  function Before<T>(initial: T, changes: seq<T>, i: nat): T
    requires i <= |changes|
  {
    if i == 0 then initial else changes[i - 1]
  }

  /** The changes recorded of any value: each differs from the one before, and the last is current. */
  predicate Tracks<T(==)>(initial: T, changes: seq<T>, current: T) {
    && (forall i :: 0 <= i < |changes| ==> changes[i] != Before(initial, changes, i))
    && current == Before(initial, changes, |changes|)
  }

  lemma TracksMore<T>(initial: T, changes: seq<T>, current: T, now: T)
    requires Tracks(initial, changes, current) && now != current
    ensures Tracks(initial, changes + [now], now)
  {
    var more := changes + [now];
    assert forall i :: 0 <= i <= |changes| ==> Before(initial, more, i) == Before(initial, changes, i);
  }

  /** A flag that `starts` sets and `stops` clears is set exactly when it was set once and not cleared since. */
  lemma {:induction false} Since(flag: nat -> bool, starts: nat -> bool, stops: nat -> bool, n: nat)
    requires !flag(0) && forall i: nat :: i < n ==> (flag(i + 1) <==> starts(i) || (flag(i) && !stops(i)))
    ensures flag(n) <==> exists k: nat :: k < n && starts(k) && forall j: nat :: k < j < n ==> !stops(j)
  {
    if n > 0 {
      Since(flag, starts, stops, n - 1);
      assert flag(n) <==> starts(n - 1) || (flag(n - 1) && !stops(n - 1));
    }
  }
}

/** Properties of event logs: what an append keeps. */
module Trace {

  ghost predicate IsAt<T>(log: seq<T>, i: int, x: T) {
    0 <= i < |log| && log[i] == x
  }

  /** Between any two occurrences of `a` in `log` there is a `b`. */
  ghost predicate Separated<T>(log: seq<T>, a: T, b: T) {
    forall i, j :: i < j && IsAt(log, i, a) && IsAt(log, j, a) ==> exists k :: i < k < j && IsAt(log, k, b)
  }

  /** Every `a` in `log` has been followed by a `b`. */
  ghost predicate Clear<T>(log: seq<T>, a: T, b: T) {
    forall i :: IsAt(log, i, a) ==> exists k :: i < k && IsAt(log, k, b)
  }

  /** An `a` may be appended whenever the log is clear; any other event always. */
  lemma AppendSeparated<T>(log: seq<T>, a: T, b: T, x: T)
    requires Separated(log, a, b)
    requires x == a ==> Clear(log, a, b)
    ensures Separated(log + [x], a, b)
  {
    var more := log + [x];
    forall i, j | i < j && IsAt(more, i, a) && IsAt(more, j, a)
      ensures exists k :: i < k < j && IsAt(more, k, b)
    {
      assert IsAt(log, i, a);
      if j < |log| {
        assert IsAt(log, j, a);
        var k :| i < k < j && IsAt(log, k, b);
        assert IsAt(more, k, b);
      } else {
        var k :| i < k && IsAt(log, k, b);
        assert IsAt(more, k, b);
      }
    }
  }

  /** Appending `b` clears the log of every earlier `a`; appending anything but `a` keeps it clear. */
  lemma AppendClear<T>(log: seq<T>, a: T, b: T, x: T)
    requires a != b && x != a
    requires x == b || Clear(log, a, b)
    ensures Clear(log + [x], a, b)
  {
    var more := log + [x];
    forall i | IsAt(more, i, a)
      ensures exists k :: i < k && IsAt(more, k, b)
    {
      if x == b {
        assert IsAt(more, |log|, b);
      } else {
        assert IsAt(log, i, a);
        var k :| i < k && IsAt(log, k, b);
        assert IsAt(more, k, b);
      }
    }
  }

  /** `e` leads from `a` to `b`. */
  ghost predicate Links<E, S>(leads: (E, S, S) -> bool, e: E, a: S, b: S) {
    leads(e, a, b)
  }

  /** Every event leads from its state to the next. */
  ghost predicate Linked<E, S>(leads: (E, S, S) -> bool, events: seq<E>, states: seq<S>) {
    && |states| <= |events| + 1
    && forall n :: 0 < n < |states| ==> Links(leads, events[n - 1], states[n - 1], states[n])
  }

  lemma LinkedGrows<E, S>(leads: (E, S, S) -> bool, events: seq<E>, states: seq<S>, next: S)
    requires Linked(leads, events, states) && 0 < |states| <= |events|
    requires Links(leads, events[|states| - 1], states[|states| - 1], next)
    ensures Linked(leads, events, states + [next])
  {
  }
}

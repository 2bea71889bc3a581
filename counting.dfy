/** Counting the elements of a trace (or of a script of inputs) that satisfy
    a predicate: how the listeners' "one reset per event" properties are
    stated. */
module Counting {

  /** The number of elements of `s` satisfying `p`. */
  function Count<T>(s: seq<T>, p: T -> bool): nat
  {
    if s == [] then 0 else Count(s[..|s| - 1], p) + (if p(s[|s| - 1]) then 1 else 0)
  }

  lemma {:induction false} CountAppend<T>(a: seq<T>, b: seq<T>, p: T -> bool)
    ensures Count(a + b, p) == Count(a, p) + Count(b, p)
    decreases |b|
  {
    if b == [] {
      assert a + b == a;
    } else {
      assert (a + b)[..|a + b| - 1] == a + b[..|b| - 1];
      CountAppend(a, b[..|b| - 1], p);
    }
  }

  lemma {:induction false} CountNone<T>(s: seq<T>, p: T -> bool)
    requires forall k :: 0 <= k < |s| ==> !p(s[k])
    ensures Count(s, p) == 0
    decreases |s|
  {
    if s != [] {
      CountNone(s[..|s| - 1], p);
    }
  }

  /** A sequence with exactly one element satisfying `p` counts one. */
  lemma CountOne<T>(s: seq<T>, p: T -> bool, i: nat)
    requires i < |s| && p(s[i])
    requires forall k :: 0 <= k < |s| && k != i ==> !p(s[k])
    ensures Count(s, p) == 1
  {
    var before := s[..i];
    var after := s[i + 1..];
    assert s == before + [s[i]] + after;
    CountAppend(before + [s[i]], after, p);
    CountNone(after, p);
    assert (before + [s[i]])[..|before|] == before;
    CountNone(before, p);
  }
}

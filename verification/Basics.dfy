module Basics {
  datatype Option<+T> = None | Some(value: T)

  ghost predicate Distinct<T>(xs: seq<T>) {
    forall i, j | 0 <= i < j < |xs| :: xs[i] != xs[j]
  }

  /** `r` is what stands in `xs` at these positions, in the same order. */
  ghost predicate Selects<T>(r: seq<T>, xs: seq<T>, at: seq<nat>) {
    && |at| == |r|
    && (forall i, j | 0 <= i < j < |at| :: at[i] < at[j])
    && forall i | 0 <= i < |at| :: at[i] < |xs| && r[i] == xs[at[i]]
  }

  ghost predicate InOrderOf<T>(r: seq<T>, xs: seq<T>) {
    exists at :: Selects(r, xs, at)
  }

  function Later(at: seq<nat>): (r: seq<nat>)
    ensures |r| == |at| && forall i | 0 <= i < |at| :: r[i] == at[i] + 1
  {
    seq(|at|, i requires 0 <= i < |at| => at[i] + 1)
  }

  /** What is selected from the rest is selected from the whole, and so it is with the first element before it. */
  lemma SelectsLater<T>(r: seq<T>, xs: seq<T>, at: seq<nat>)
    requires xs != [] && Selects(r, xs[1..], at)
    ensures Selects(r, xs, Later(at)) && Selects([xs[0]] + r, xs, [0] + Later(at))
  {
    hide Later;
    assert forall i | 0 <= i < |r| :: r[i] == xs[1..][at[i]] == xs[at[i] + 1];
    var longer, next := [xs[0]] + r, [0] + Later(at);
    forall i | 0 <= i < |next| ensures next[i] < |xs| && longer[i] == xs[next[i]] {
    }
    forall i, j | 0 <= i < j < |next| ensures next[i] < next[j] {
    }
  }

  lemma InLater(at: seq<nat>, p: nat)
    ensures p in Later(at) <==> p > 0 && p - 1 in at
  {
    if p > 0 && p - 1 in at {
      var i :| 0 <= i < |at| && at[i] == p - 1;
      assert Later(at)[i] == p;
    }
  }

  lemma SmallerSet<T>(a: set<T>, b: set<T>)
    requires a <= b
    ensures |a| <= |b| && (a != b ==> |a| < |b|)
  {
    assert b == a + (b - a);
    if a != b {
      var c :| c in b - a;
      assert b - a != {};
    }
  }
}

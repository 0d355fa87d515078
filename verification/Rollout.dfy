/** The rollout of a new parent revision, as steps over the sets of children that the revisions list.
    The first set belongs to the latest revision. */
module Rollout {
  import opened Basics

  /** Children are told apart by API group, kind and name; the API version does not matter. */
  datatype ChildKind = ChildKind(apiGroup: string, kind: string)
  datatype Child = Child(kind: ChildKind, name: string)

  type State = seq<set<Child>>

  /** What one sync pass sees: the kinds that roll, the children the latest revision desires in the
      order its hook returned them, the observed children that already match the latest revision, and
      the observed ones that are up to date and pass their status checks. */
  datatype Inputs = Inputs(rolling: set<ChildKind>, order: seq<Child>, noop: set<Child>, happy: set<Child>)
  {
    function Desired(): set<Child> {
      set c | c in order
    }

    /** The desired children that roll. */
    function Wanted(): set<Child> {
      set c | c in order && c.kind in rolling
    }
  }

  datatype Condition = OnLatestRevision | RolloutProgressing(child: Child) | RolloutWaiting

  /** The revision lists the child, and none before it does. */
  predicate First(s: State, i: nat, c: Child)
    requires i < |s|
  {
    c in s[i] && forall j | 0 <= j < i :: c !in s[j]
  }

  /** Of a kind a revision keeps all its names while it is the first to list some wanted child of that kind. */
  function Keep(s: State, i: nat, inputs: Inputs): set<Child>
    requires i < |s|
  {
    set c | c in s[i] && exists w | w in s[i] :: w.kind == c.kind && w in inputs.Wanted() && First(s, i, w)
  }

  function KeepAll(s: State, inputs: Inputs): (r: State)
    ensures |r| == |s|
  {
    seq(|s|, i requires 0 <= i < |s| => Keep(s, i, inputs))
  }

  function Union(s: State): set<Child> {
    set i, c | 0 <= i < |s| && c in s[i] :: c
  }

  /** The wanted children that the latest revision takes without waiting: those nobody lists, and those
      whose update would be a no-op. */
  function FreeMoves(s: State, inputs: Inputs): set<Child>
    requires |s| > 0
  {
    set c | c in inputs.Wanted() && c !in s[0] && (c in inputs.noop || c !in Union(s))
  }

  /** Gives the children to the latest revision and takes them from all others. */
  function Move(s: State, children: set<Child>): (r: State)
    requires |s| > 0
    ensures |r| == |s|
  {
    seq(|s|, i requires 0 <= i < |s| => if i == 0 then s[0] + children else s[i] - children)
  }

  /** Gives the children to the latest revision and takes each from the first one that lists it. */
  function MoveFirst(s: State, children: set<Child>): (r: State)
    requires |s| > 0
    ensures |r| == |s|
  {
    seq(|s|, i requires 0 <= i < |s| =>
      if i == 0 then s[0] + children else set c | c in s[i] && !(c in children && First(s, i, c)))
  }

  function AfterFreeMoves(s: State, inputs: Inputs): (r: State)
    requires |s| > 0
    ensures |r| == |s|
  {
    var kept := KeepAll(s, inputs);
    MoveFirst(kept, FreeMoves(kept, inputs))
  }

  /** The first wanted child, in the order of the hook, that the latest revision does not list. */
  function NextChild(order: seq<Child>, wanted: set<Child>, latest: set<Child>): (r: seq<Child>)
    ensures |r| <= 1
  {
    if order == [] then []
    else if order[0] in wanted && order[0] !in latest then [order[0]]
    else NextChild(order[1..], wanted, latest)
  }

  /** Everything the latest revision lists is desired, up to date and healthy. */
  predicate MayContinue(latest: set<Child>, inputs: Inputs) {
    latest <= inputs.Desired() * inputs.happy
  }

  function Pass(s: State, inputs: Inputs): (r: (State, Condition))
    requires |s| > 0
    ensures |r.0| == |s|
  {
    var moved := AfterFreeMoves(s, inputs);
    var next := NextChild(inputs.order, inputs.Wanted(), moved[0]);
    if next == [] then (moved, OnLatestRevision)
    else if MayContinue(moved[0], inputs) then (Move(moved, {next[0]}), RolloutProgressing(next[0]))
    else (moved, RolloutWaiting)
  }

  /** Revisions that list nothing are dropped, except the latest. */
  function Prune(s: State): (r: State)
    requires |s| > 0
    ensures |r| > 0 && r[0] == s[0]
  {
    [s[0]] + NonEmpty(s[1..])
  }

  function NonEmpty(s: State): State {
    if s == [] then []
    else (if s[0] == {} then [] else [s[0]]) + NonEmpty(s[1..])
  }

  // ---- one pass

  ghost predicate Exclusive(s: State) {
    forall i, j | 0 <= i < j < |s| :: s[i] !! s[j]
  }

  lemma MoveKeepsExclusive(s: State, children: set<Child>)
    requires |s| > 0 && Exclusive(s)
    ensures Exclusive(Move(s, children))
  {
  }

  lemma FreeMovesKeepExclusive(s: State, inputs: Inputs)
    requires |s| > 0 && Exclusive(s)
    ensures Exclusive(MoveFirst(s, FreeMoves(s, inputs)))
  {
    var r := MoveFirst(s, FreeMoves(s, inputs));
    forall i, j | 0 <= i < j < |s| ensures r[i] !! r[j] {
      assert forall k | 0 <= k < j :: s[k] !! s[j];
      assert forall c | c in s[j] :: First(s, j, c);
    }
  }

  lemma NextChildIsFirst(order: seq<Child>, wanted: set<Child>, latest: set<Child>)
    ensures var r := NextChild(order, wanted, latest);
      && (r == [] <==> forall c | c in order && c in wanted :: c in latest)
      && (r != [] ==> r[0] in order && r[0] in wanted && r[0] !in latest)
  {
  }

  /** No pass makes two revisions list one child. */
  lemma PassKeepsExclusive(s: State, inputs: Inputs)
    requires |s| > 0 && Exclusive(s)
    ensures Exclusive(Pass(s, inputs).0)
  {
    var kept := KeepAll(s, inputs);
    assert Exclusive(kept);
    var moved := AfterFreeMoves(s, inputs);
    FreeMovesKeepExclusive(kept, inputs);
    var next := NextChild(inputs.order, inputs.Wanted(), moved[0]);
    if next != [] {
      MoveKeepsExclusive(moved, {next[0]});
    }
  }

  /** A wanted child stays with the first revision that lists it when the claims are synced. */
  lemma WantedStay(s: State, inputs: Inputs, i: nat, c: Child)
    requires i < |s| && c in inputs.Wanted()
    ensures First(KeepAll(s, inputs), i, c) <==> First(s, i, c)
    ensures c in Union(KeepAll(s, inputs)) <==> c in Union(s)
  {
    var kept := KeepAll(s, inputs);
    if c in Union(s) {
      var j := FirstOf(s, c);
      assert c in kept[j];
    }
    if First(kept, i, c) {
      var j := FirstOf(s, c);
      assert c in kept[j];
    }
  }

  lemma FirstOf(s: State, c: Child) returns (i: nat)
    requires c in Union(s)
    ensures i < |s| && First(s, i, c)
  {
    i := 0;
    while c !in s[i]
      invariant i < |s| && forall j | 0 <= j < i :: c !in s[j]
      decreases |s| - i
    {
      assert i + 1 < |s|;
      i := i + 1;
    }
  }

  /** After a pass every wanted child is listed. */
  lemma PassListsWanted(s: State, inputs: Inputs)
    requires |s| > 0
    ensures inputs.Wanted() <= Union(Pass(s, inputs).0)
  {
    var kept, moved, after := KeepAll(s, inputs), AfterFreeMoves(s, inputs), Pass(s, inputs).0;
    forall c | c in inputs.Wanted() ensures c in Union(after) {
      if c in FreeMoves(kept, inputs) || c in kept[0] {
        assert c in after[0];
      } else {
        var i :| 0 <= i < |kept| && c in kept[i];
        assert c in moved[i];
        assert c in after[i] || c in after[0];
      }
    }
  }

  /** A child comes to the latest revision from an older one only if its update is a no-op, or as the one
      child that the pass reports, and then everything the latest revision lists is up to date and
      healthy. Nothing wanted leaves the latest revision, and older revisions gain nothing. */
  lemma OneGuardedMove(s: State, inputs: Inputs, c: Child)
    requires |s| > 0
    ensures var (after, outcome) := Pass(s, inputs);
      && (c in after[0] && c !in s[0] && c in Union(KeepAll(s, inputs)) ==>
        || c in inputs.noop
        || (outcome == RolloutProgressing(c)
          && forall w | w in after[0] && w != c :: w in inputs.Desired() && w in inputs.happy))
      && (c in s[0] && c in inputs.Wanted() ==> c in after[0])
      && (c in after[0] ==> c in s[0] || c in inputs.Wanted())
      && forall i | 0 < i < |s| && c in after[i] :: c in s[i]
  {
    var moved := AfterFreeMoves(s, inputs);
    NextChildIsFirst(inputs.order, inputs.Wanted(), moved[0]);
    assert c in s[0] && c in inputs.Wanted() ==> First(s, 0, c);
    assert forall i | 0 < i < |s| :: moved[i] <= KeepAll(s, inputs)[i] <= s[i];
  }

  /** Where a pass leaves a wanted child that an older revision lists, when no child is listed twice. */
  lemma WhereAfterPass(s: State, inputs: Inputs, i: nat, c: Child)
    requires Exclusive(s) && 0 < i < |s| && c in s[i] && c in inputs.Wanted()
    ensures var (after, condition) := Pass(s, inputs);
      if c in after[0] then
        (c in inputs.noop || condition == RolloutProgressing(c)) && forall j | 0 < j < |s| :: c !in after[j]
      else
        c in after[i]
  {
    var after := Pass(s, inputs).0;
    PassKeepsExclusive(s, inputs);
    OneGuardedMove(s, inputs, c);
    assert s[0] !! s[i];
    WantedStay(s, inputs, i, c);
    assert c in Union(s);
    if c in after[0] {
      assert forall j | 0 < j < |after| :: after[0] !! after[j];
    } else {
      PassListsWanted(s, inputs);
      var j :| 0 <= j < |after| && c in after[j];
      assert c in s[j];
      assert forall m | 0 <= m < |s| && m != i :: s[m] !! s[i];
    }
  }

  // ---- what a pass does, told by itself

  /** What the latest revision lists after the free moves: of the kinds of which it lists a wanted child all it had, and
      the wanted children that match it already or that nobody lists. */
  lemma LatestAfterFreeMoves(s: State, inputs: Inputs, c: Child)
    requires |s| > 0
    ensures c in AfterFreeMoves(s, inputs)[0] <==>
      || (c in s[0] && exists w :: w in s[0] && w.kind == c.kind && w in inputs.order && w.kind in inputs.rolling)
      || (c in inputs.order && c.kind in inputs.rolling && (c in inputs.noop || forall l | l in s :: c !in l))
  {
    var kept := KeepAll(s, inputs);
    if c in inputs.Wanted() {
      WantedStay(s, inputs, 0, c);
    }
    assert c in Union(s) <==> exists l :: l in s && c in l by {
      if l :| l in s && c in l {
        var i :| 0 <= i < |s| && s[i] == l;
        assert c in s[i];
      }
      if i :| 0 <= i < |s| && c in s[i] {
        assert s[i] in s;
      }
    }
    assert forall w :: First(s, 0, w) <==> w in s[0];
  }

  /** A wanted child that matches the latest revision already, or that nobody lists, is moved at once. */
  lemma FreeChildrenMove(s: State, inputs: Inputs, c: Child)
    requires |s| > 0 && c in inputs.Wanted() && (c in inputs.noop || c !in Union(s))
    ensures c in Pass(s, inputs).0[0]
  {
    WantedStay(s, inputs, 0, c);
  }

  /** In the order of the hook this is the first wanted child that is not listed. */
  ghost predicate FirstWaiting(order: seq<Child>, wanted: set<Child>, latest: set<Child>, i: nat) {
    && i < |order| && order[i] in wanted && order[i] !in latest
    && forall j | 0 <= j < i :: order[j] in wanted ==> order[j] in latest
  }

  /** The child of the guarded move is the first in the order of the hook that waits. */
  lemma {:induction false} NoneWaitsBefore(order: seq<Child>, wanted: set<Child>, latest: set<Child>)
    returns (i: nat)
    ensures var r := NextChild(order, wanted, latest);
      if r == [] then i == |order| && forall c | c in order && c in wanted :: c in latest
      else FirstWaiting(order, wanted, latest, i) && r == [order[i]]
  {
    if order == [] || (order[0] in wanted && order[0] !in latest) {
      i := 0;
    } else {
      i := NoneWaitsBefore(order[1..], wanted, latest);
      i := i + 1;
      assert order == [order[0]] + order[1..];
    }
  }

  /** A pass reports a move of a child exactly if that is the first in the order of the hook that waits, and all that
      the latest revision lists is desired and happy. */
  lemma MovesExactlyIf(s: State, inputs: Inputs, c: Child)
    requires |s| > 0
    ensures var latest := AfterFreeMoves(s, inputs)[0];
      Pass(s, inputs).1 == RolloutProgressing(c) <==>
      && (forall w | w in latest :: w in inputs.order && w in inputs.happy)
      && exists i: nat :: FirstWaiting(inputs.order, inputs.Wanted(), latest, i) && inputs.order[i] == c
  {
    var latest := AfterFreeMoves(s, inputs)[0];
    var k := NoneWaitsBefore(inputs.order, inputs.Wanted(), latest);
    hide AfterFreeMoves, NextChild;
    if i: nat :| FirstWaiting(inputs.order, inputs.Wanted(), latest, i) && inputs.order[i] == c {
      assert k < |inputs.order| && i == k;
    }
  }

  /** What an older revision lists after a pass: of the kinds of which it is the first to list a wanted child all it
      had, but not the child that the pass reports, nor those it was the first to list that match the latest one. */
  lemma OlderAfterPass(s: State, inputs: Inputs, i: nat, c: Child)
    requires 0 < i < |s|
    ensures c in Pass(s, inputs).0[i] <==>
      && c in s[i] && Pass(s, inputs).1 != RolloutProgressing(c)
      && (exists w :: w in s[i] && w.kind == c.kind && w in inputs.Wanted() && First(s, i, w))
      && !(c in inputs.Wanted() && c in inputs.noop && First(s, i, c))
  {
    var kept := KeepAll(s, inputs);
    var next := NextChild(inputs.order, inputs.Wanted(), AfterFreeMoves(s, inputs)[0]);
    if c in inputs.Wanted() {
      WantedStay(s, inputs, i, c);
      assert First(s, i, c) ==> c !in s[0] && c !in kept[0] && c in Union(kept);
      assert c in kept[i] ==> c in Union(kept);
    }
    assert c in AfterFreeMoves(s, inputs)[i] <==>
      c in kept[i] && !(c in FreeMoves(kept, inputs) && First(kept, i, c));
  }

  /** Pruning keeps the order. */
  lemma PrunedInOrder(s: State) returns (at: seq<nat>)
    requires |s| > 0
    ensures Selects(Prune(s), s, at)
    ensures forall p: nat :: p in at <==> p < |s| && (p == 0 || s[p] != {})
  {
    var rest := NonEmptyInOrder(s[1..]);
    SelectsLater(NonEmpty(s[1..]), s, rest);
    at := [0] + Later(rest);
    hide Selects, Later;
    forall p: nat ensures p in at <==> p < |s| && (p == 0 || s[p] != {}) {
      InLater(rest, p);
      if 0 < p < |s| {
        assert s[1..][p - 1] == s[p];
      }
    }
  }

  lemma {:induction false} NonEmptyInOrder(s: State) returns (at: seq<nat>)
    ensures Selects(NonEmpty(s), s, at)
    ensures forall p: nat :: p in at <==> p < |s| && s[p] != {}
  {
    if s == [] {
      at := [];
    } else {
      var rest := NonEmptyInOrder(s[1..]);
      var r := NonEmpty(s[1..]);
      assert NonEmpty(s) == if s[0] != {} then [s[0]] + r else r;
      SelectsLater(r, s, rest);
      hide Selects, Later, NonEmpty;
      at := if s[0] != {} then [0] + Later(rest) else Later(rest);
      forall p: nat ensures p in at <==> p < |s| && s[p] != {} {
        InLater(rest, p);
        if 0 < p < |s| {
          assert s[1..][p - 1] == s[p];
        }
      }
    }
  }
}

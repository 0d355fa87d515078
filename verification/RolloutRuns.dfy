/** Whole rollouts: any number of passes, whatever the hooks answer and the cluster shows in between. */
module RolloutRuns {
  import opened Basics
  import opened Rollout

  /** How far storing the result of a pass gets: not at all if the pass panics or fails; up to the deletion of
      some revisions that list nothing any more; or past that, to the new lists of the first `n` revisions. */
  datatype Fate = Lost | Deleting(gone: set<nat>) | Writing(n: nat)
  {
    predicate Wrote(i: nat) {
      Writing? && i < n
    }

    predicate Deleted(i: nat) {
      Writing? || (Deleting? && i in gone)
    }
  }

  /** One pass, and what the next pass reads back: the stored revisions in any order, and a new one in front if
      the parent changed to a state it never had. */
  datatype Step = Step(inputs: Inputs, fate: Fate, newRevision: bool, readBack: seq<nat>)

  function Stored(s: State, after: State, fate: Fate): (r: State)
    requires |after| == |s| > 0
    ensures |r| == |s|
  {
    seq(|s|, i requires 0 <= i < |s| =>
      if i > 0 && after[i] == {} && fate.Deleted(i) then {}
      else if fate.Wrote(i) then after[i]
      else s[i])
  }

  function Written(s: State, step: Step): (r: State)
    requires |s| > 0
    ensures |r| > 0
  {
    (if step.newRevision then [{}] else []) + Prune(Stored(s, Pass(s, step.inputs).0, step.fate))
  }

  ghost predicate ReadsBack(r: State, readBack: seq<nat>) {
    && |readBack| == |r|
    && (forall i | 0 <= i < |readBack| :: readBack[i] < |r|)
    && Distinct(readBack)
    && (forall i | 0 <= i < |r| :: i in readBack)
  }

  ghost function Next(s: State, step: Step): (r: State)
    requires |s| > 0 && ReadsBack(Written(s, step), step.readBack)
    ensures |r| > 0
  {
    seq(|step.readBack|, i requires 0 <= i < |step.readBack| => Written(s, step)[step.readBack[i]])
  }

  ghost predicate IsRun(s: State, steps: seq<Step>)
    requires |s| > 0
    decreases |steps|
  {
    steps != [] ==> ReadsBack(Written(s, steps[0]), steps[0].readBack) && IsRun(Next(s, steps[0]), steps[1..])
  }

  ghost function Run(s: State, steps: seq<Step>): (r: State)
    requires |s| > 0 && IsRun(s, steps)
    ensures |r| > 0
    decreases |steps|
  {
    if steps == [] then s else Run(Next(s, steps[0]), steps[1..])
  }

  lemma RunOfNone(s: State, steps: seq<Step>)
    requires |s| > 0
    ensures steps[..0] == [] && IsRun(s, steps[..0]) && Run(s, steps[..0]) == s
  {
  }

  lemma RunOfPrefix(s: State, steps: seq<Step>, k: nat)
    requires |s| > 0 && 0 < k <= |steps| && IsRun(s, steps)
    requires IsRun(Next(s, steps[0]), steps[1..][..k - 1])
    ensures IsRun(s, steps[..k]) && Run(s, steps[..k]) == Run(Next(s, steps[0]), steps[1..][..k - 1])
  {
    hide Next, ReadsBack, Written, Pass;
    var prefix := steps[..k];
    assert prefix != [] && prefix[0] == steps[0] && prefix[1..] == steps[1..][..k - 1];
  }

  // ---- exclusivity over every run

  lemma ExclusiveApart(s: State)
    requires s != []
    ensures Exclusive(s) <==> Exclusive(s[1..]) && forall l | l in s[1..] :: s[0] !! l
  {
    if Exclusive(s[1..]) && forall l | l in s[1..] :: s[0] !! l {
      forall i, j | 0 <= i < j < |s| ensures s[i] !! s[j] {
        assert s[1..][j - 1] == s[j] && s[1..][j - 1] in s[1..];
        if i > 0 {
          assert s[1..][i - 1] == s[i] && s[1..][i - 1] !! s[1..][j - 1];
        }
      }
    }
  }

  lemma {:induction false} NonEmptyKeepsExclusive(s: State)
    requires Exclusive(s)
    ensures Exclusive(NonEmpty(s))
    ensures forall l | l in NonEmpty(s) :: l in s
  {
    if s == [] {
    } else {
      ExclusiveApart(s);
      NonEmptyKeepsExclusive(s[1..]);
      if s[0] != {} {
        assert NonEmpty(s)[1..] == NonEmpty(s[1..]);
        ExclusiveApart(NonEmpty(s));
      }
    }
  }

  /** No revision that keeps its old list lists a child that the stored latest revision just took. */
  ghost predicate Harmless(s: State, after: State, fate: Fate)
    requires |after| == |s| > 0
  {
    fate.Wrote(0) ==> forall i | 0 < i < |s| && !fate.Wrote(i) && after[i] != {} :: s[i] !! after[0]
  }

  /** What is stored lists no child twice exactly if the pass got far enough. */
  lemma StoredExclusive(s: State, inputs: Inputs, fate: Fate)
    requires |s| > 0 && Exclusive(s)
    ensures var after := Pass(s, inputs).0;
      Exclusive(Stored(s, after, fate)) <==> Harmless(s, after, fate)
  {
    var after := Pass(s, inputs).0;
    var r := Stored(s, after, fate);
    PassKeepsExclusive(s, inputs);
    forall i | 0 < i < |s| ensures after[i] <= s[i] {
      forall c | c in after[i] ensures c in s[i] {
        OneGuardedMove(s, inputs, c);
      }
    }
    if Exclusive(r) && fate.Wrote(0) {
      forall i | 0 < i < |s| && !fate.Wrote(i) && after[i] != {} ensures s[i] !! after[0] {
        assert r[0] !! r[i];
      }
    }
  }

  lemma WrittenExclusive(s: State, step: Step)
    requires |s| > 0 && Exclusive(s) && Harmless(s, Pass(s, step.inputs).0, step.fate)
    ensures Exclusive(Written(s, step))
  {
    var stored := Stored(s, Pass(s, step.inputs).0, step.fate);
    StoredExclusive(s, step.inputs, step.fate);
    hide Pass, Stored, Harmless;
    ExclusiveApart(stored);
    NonEmptyKeepsExclusive(stored[1..]);
    assert Prune(stored)[1..] == NonEmpty(stored[1..]);
    ExclusiveApart(Prune(stored));
  }

  lemma NextKeepsExclusive(s: State, step: Step)
    requires |s| > 0 && Exclusive(s) && ReadsBack(Written(s, step), step.readBack)
    requires Harmless(s, Pass(s, step.inputs).0, step.fate)
    ensures Exclusive(Next(s, step))
  {
    WrittenExclusive(s, step);
    hide Written, Pass, Harmless;
    var r, next := Written(s, step), Next(s, step);
    forall i, j | 0 <= i < j < |next| ensures next[i] !! next[j] {
      var a, b := step.readBack[i], step.readBack[j];
      assert a != b && next[i] == r[a] && next[j] == r[b];
      if a < b {
        assert r[a] !! r[b];
      } else {
        assert r[b] !! r[a];
      }
    }
  }

  ghost predicate AllHarmless(s: State, steps: seq<Step>)
    requires |s| > 0 && IsRun(s, steps)
    decreases |steps|
  {
    steps != [] ==>
      Harmless(s, Pass(s, steps[0].inputs).0, steps[0].fate) && AllHarmless(Next(s, steps[0]), steps[1..])
  }

  /** Whatever the hooks answer and however the parent changes, no child is ever listed twice, unless storing a
      pass fails between the revision that took a child and the one it came from. */
  lemma {:induction false} RunKeepsExclusive(s: State, steps: seq<Step>)
    requires |s| > 0 && Exclusive(s) && IsRun(s, steps) && AllHarmless(s, steps)
    ensures Exclusive(Run(s, steps))
    decreases |steps|
  {
    if steps == [] {
    } else {
      NextKeepsExclusive(s, steps[0]);
      RunKeepsExclusive(Next(s, steps[0]), steps[1..]);
    }
  }

  // ---- progress while the parent stays as it is

  /** The wanted children that the latest revision does not list yet. */
  ghost function Remaining(s: State, wanted: set<Child>): set<Child>
    requires |s| > 0
  {
    wanted - s[0]
  }

  lemma LatestOnlyGains(s: State, inputs: Inputs)
    requires |s| > 0
    ensures var (after, outcome) := Pass(s, inputs);
      && s[0] * inputs.Wanted() <= AfterFreeMoves(s, inputs)[0] <= after[0]
      && (outcome.RolloutProgressing? ==>
        outcome.child in inputs.Wanted() - AfterFreeMoves(s, inputs)[0] && outcome.child in after[0])
      && (outcome == OnLatestRevision <==> inputs.Wanted() <= AfterFreeMoves(s, inputs)[0])
  {
    NextChildIsFirst(inputs.order, inputs.Wanted(), AfterFreeMoves(s, inputs)[0]);
  }

  lemma NothingLeftOut(a: set<Child>, b: set<Child>)
    ensures a - b == {} <==> a <= b
  {
    if a - b == {} {
      forall c | c in a ensures c in b {
        assert c !in a - b;
      }
    }
  }

  /** A pass never leaves more children to move. It leaves fewer when it reports a move, and it reports
      that all are on the latest revision exactly when the free moves left none. */
  lemma PassProgress(s: State, inputs: Inputs)
    requires |s| > 0
    ensures var (after, outcome), wanted := Pass(s, inputs), inputs.Wanted();
      && Remaining(after, wanted) <= Remaining(s, wanted)
      && (outcome.RolloutProgressing? ==> |Remaining(after, wanted)| < |Remaining(s, wanted)|)
      && (outcome == OnLatestRevision <==> Remaining(AfterFreeMoves(s, inputs), wanted) == {})
      && (outcome == OnLatestRevision ==> Remaining(after, wanted) == {})
  {
    var after, wanted := Pass(s, inputs).0, inputs.Wanted();
    LatestOnlyGains(s, inputs);
    NothingLeftOut(wanted, AfterFreeMoves(s, inputs)[0]);
    assert Remaining(after, wanted) <= Remaining(s, wanted);
    SmallerSet(Remaining(after, wanted), Remaining(s, wanted));
  }

  /** The parent keeps its state, so the latest revision stays the same. */
  ghost predicate SameParent(steps: seq<Step>) {
    forall t | t in steps :: !t.newRevision && |t.readBack| > 0 && t.readBack[0] == 0
  }

  /** Moreover its hook keeps wanting the same children. */
  ghost predicate Steady(steps: seq<Step>, wanted: set<Child>) {
    SameParent(steps) && forall t | t in steps :: t.inputs.Wanted() == wanted
  }

  lemma NextLatest(s: State, step: Step)
    requires |s| > 0 && ReadsBack(Written(s, step), step.readBack) && SameParent([step])
    ensures Next(s, step)[0] == if step.fate.Wrote(0) then Pass(s, step.inputs).0[0] else s[0]
  {
    assert step in [step];
  }

  /** How many stored passes of the run find everything on the latest revision up to date and healthy. */
  ghost function HappyPasses(s: State, steps: seq<Step>): nat
    requires |s| > 0 && IsRun(s, steps)
    decreases |steps|
  {
    if steps == [] then 0
    else
      var t := steps[0];
      (if t.fate.Wrote(0) && MayContinue(AfterFreeMoves(s, t.inputs)[0], t.inputs) then 1 else 0)
      + HappyPasses(Next(s, steps[0]), steps[1..])
  }

  /** Every happy pass takes at least one child off the remaining ones, until none remain. */
  lemma {:induction false} HappyPassesFinish(s: State, steps: seq<Step>, wanted: set<Child>)
    requires |s| > 0 && IsRun(s, steps) && Steady(steps, wanted)
    ensures |Remaining(Run(s, steps), wanted)| + HappyPasses(s, steps) <= |Remaining(s, wanted)|
      || Remaining(Run(s, steps), wanted) == {}
    decreases |steps|
  {
    if steps == [] {
    } else {
      var t := steps[0];
      var next := Next(s, t);
      PassProgress(s, t.inputs);
      NextLatest(s, t);
      SmallerSet(Remaining(next, wanted), Remaining(s, wanted));
      HappyPassesFinish(next, steps[1..], wanted);
      if Remaining(next, wanted) == {} {
        NothingRemains(next, steps[1..], wanted);
      }
    }
  }

  lemma {:induction false} NothingRemains(s: State, steps: seq<Step>, wanted: set<Child>)
    requires |s| > 0 && IsRun(s, steps) && Steady(steps, wanted)
    requires Remaining(s, wanted) == {}
    ensures Remaining(Run(s, steps), wanted) == {}
    decreases |steps|
  {
    if steps == [] {
    } else {
      PassProgress(s, steps[0].inputs);
      NextLatest(s, steps[0]);
      NothingRemains(Next(s, steps[0]), steps[1..], wanted);
    }
  }

  /** So as many happy passes as children remain finish the rollout, however many waiting passes come in
      between, and the next pass says so. */
  lemma RolloutFinishes(s: State, steps: seq<Step>, last: Inputs)
    requires |s| > 0 && IsRun(s, steps) && Steady(steps, last.Wanted())
    requires HappyPasses(s, steps) >= |Remaining(s, last.Wanted())|
    ensures last.Wanted() <= Run(s, steps)[0]
    ensures Pass(Run(s, steps), last).1 == OnLatestRevision
  {
    hide Pass, AfterFreeMoves, Run, HappyPasses, IsRun, Steady;
    var end := Run(s, steps);
    HappyPassesFinish(s, steps, last.Wanted());
    PassProgress(end, last);
    LatestOnlyGains(end, last);
    NothingLeftOut(last.Wanted(), end[0]);
    NothingLeftOut(last.Wanted(), AfterFreeMoves(end, last)[0]);
    assert end[0] * last.Wanted() == last.Wanted();
  }

  // ---- when a rollout is stuck

  /** Of the lists that the latest revision keeps, every name is desired. */
  ghost predicate LatestWithin(s: State, inputs: Inputs)
    requires |s| > 0
  {
    Keep(s, 0, inputs) <= inputs.Desired()
  }

  /** What the cluster may answer: of the desired children some match the latest revision, and some of these are
      healthy. */
  ghost predicate Answer(inputs: Inputs, noop: set<Child>, happy: set<Child>) {
    happy <= noop <= inputs.Desired()
  }

  function Answered(inputs: Inputs, noop: set<Child>, happy: set<Child>): Inputs {
    inputs.(noop := noop, happy := happy)
  }

  ghost predicate Progresses(s: State, inputs: Inputs)
    requires |s| > 0
  {
    Pass(s, inputs).1.RolloutProgressing?
  }

  lemma SameAnswered(s: State, inputs: Inputs, noop: set<Child>, happy: set<Child>)
    ensures KeepAll(s, Answered(inputs, noop, happy)) == KeepAll(s, inputs)
    ensures Answered(inputs, noop, happy).Wanted() == inputs.Wanted()
    ensures Answered(inputs, noop, happy).Desired() == inputs.Desired()
  {
    var other := Answered(inputs, noop, happy);
    assert other.Wanted() == inputs.Wanted() && other.Desired() == inputs.Desired();
    forall i | 0 <= i < |s| ensures Keep(s, i, other) == Keep(s, i, inputs) {
    }
  }

  /** Some answer of the cluster makes the next pass report a move exactly when the latest revision keeps no name
      that is no longer desired, and an older one lists a wanted child that the latest does not. */
  lemma CanProgress(s: State, inputs: Inputs)
    requires |s| > 0
    ensures (exists noop, happy :: Answer(inputs, noop, happy) && Progresses(s, Answered(inputs, noop, happy))) <==>
      LatestWithin(s, inputs) && exists c :: c in inputs.Wanted() && c !in s[0] && c in Union(s)
  {
    if noop, happy :| Answer(inputs, noop, happy) && Progresses(s, Answered(inputs, noop, happy)) {
      ProgressNeeds(s, inputs, noop, happy);
    }
    if LatestWithin(s, inputs) {
      if c :| c in inputs.Wanted() && c !in s[0] && c in Union(s) {
        AllButOne(s, inputs, c);
        var noop := inputs.Desired() - {c};
        assert Answer(inputs, noop, noop);
      }
    }
  }

  lemma ProgressNeeds(s: State, inputs: Inputs, noop: set<Child>, happy: set<Child>)
    requires |s| > 0 && Answer(inputs, noop, happy) && Progresses(s, Answered(inputs, noop, happy))
    ensures LatestWithin(s, inputs)
    ensures exists c :: c in inputs.Wanted() && c !in s[0] && c in Union(s)
  {
    var other := Answered(inputs, noop, happy);
    var moved := AfterFreeMoves(s, other);
    SameAnswered(s, inputs, noop, happy);
    NextChildIsFirst(other.order, other.Wanted(), moved[0]);
    var c := Pass(s, other).1.child;
    WantedStay(s, other, 0, c);
    assert Keep(s, 0, inputs) <= moved[0] <= inputs.Desired();
    assert c !in moved[0] && c !in KeepAll(s, other)[0];
    assert First(s, 0, c) <==> c in s[0];
  }

  /** If the cluster shows that all but this child match the latest revision and are healthy, it is the one moved. */
  lemma AllButOne(s: State, inputs: Inputs, c: Child)
    requires |s| > 0 && LatestWithin(s, inputs) && c in inputs.Wanted() && c !in s[0] && c in Union(s)
    ensures Progresses(s, Answered(inputs, inputs.Desired() - {c}, inputs.Desired() - {c}))
  {
    var rest := inputs.Desired() - {c};
    var other := Answered(inputs, rest, rest);
    var kept, moved := KeepAll(s, other), AfterFreeMoves(s, other);
    SameAnswered(s, inputs, rest, rest);
    WantedStay(s, other, 0, c);
    NextChildIsFirst(other.order, other.Wanted(), moved[0]);
    assert c !in kept[0] && c !in FreeMoves(kept, other) && c !in moved[0];
    assert moved[0] == kept[0] + FreeMoves(kept, other);
    assert kept[0] == Keep(s, 0, inputs);
    assert MayContinue(moved[0], other);
  }

  ghost predicate SameAim(a: Inputs, b: Inputs) {
    a.rolling == b.rolling && a.Desired() == b.Desired()
  }

  /** While the aim stays, a latest revision within the desired set stays within it, and one that is not
      stays out of it: narrowing the lists would be needed to get it back. */
  lemma LatestWithinStays(s: State, inputs: Inputs, next: Inputs)
    requires |s| > 0 && SameAim(inputs, next)
    ensures LatestWithin(Pass(s, inputs).0, next) <==> LatestWithin(s, inputs)
  {
    var after := Pass(s, inputs).0;
    var kept := Keep(s, 0, inputs);
    assert inputs.Wanted() == next.Wanted() by {
      assert forall c :: c in inputs.Wanted() <==> c in inputs.Desired() && c.kind in inputs.rolling;
    }
    assert kept <= after[0] <= kept + inputs.Wanted() by {
      NextChildIsFirst(inputs.order, inputs.Wanted(), AfterFreeMoves(s, inputs)[0]);
    }
    forall c | c in kept ensures c in Keep(after, 0, next) {
      var w :| w in s[0] && w.kind == c.kind && w in inputs.Wanted() && First(s, 0, w);
      assert w in kept && First(after, 0, w);
    }
  }

  lemma StillStuck(s: State, step: Step, aim: Inputs)
    requires |s| > 0 && ReadsBack(Written(s, step), step.readBack) && SameParent([step]) && SameAim(step.inputs, aim)
    requires !LatestWithin(s, aim)
    ensures !LatestWithin(Next(s, step), aim)
    ensures !Progresses(s, step.inputs)
  {
    LatestWithinStays(s, step.inputs, aim);
    NextLatest(s, step);
    LatestDecides(s, step.inputs, s, aim);
    LatestDecides(s, aim, Next(s, step), aim);
    LatestDecides(Pass(s, step.inputs).0, aim, Next(s, step), aim);
    assert !MayContinue(AfterFreeMoves(s, step.inputs)[0], step.inputs);
  }

  lemma LatestDecides(s: State, a: Inputs, r: State, b: Inputs)
    requires |s| > 0 && |r| > 0 && SameAim(a, b)
    ensures s[0] == r[0] ==> Keep(s, 0, a) == Keep(r, 0, b)
  {
    assert forall c :: c in a.Wanted() <==> c in a.Desired() && c.kind in a.rolling;
    assert forall c :: c in b.Wanted() <==> c in b.Desired() && c.kind in b.rolling;
    assert forall c :: First(s, 0, c) <==> c in s[0];
    assert forall c :: First(r, 0, c) <==> c in r[0];
  }

  /** A latest revision that keeps a name no longer desired never gets another child by waiting, whatever
      the cluster shows, until the aim changes. */
  lemma {:induction false} StuckForever(s: State, steps: seq<Step>, aim: Inputs, k: nat)
    requires |s| > 0 && IsRun(s, steps) && k < |steps|
    requires SameParent(steps) && forall t | t in steps :: SameAim(t.inputs, aim)
    requires !LatestWithin(s, aim)
    ensures IsRun(s, steps[..k]) && !Progresses(Run(s, steps[..k]), steps[k].inputs)
    decreases k
  {
    StillStuck(s, steps[0], aim);
    RunOfNone(s, steps);
    hide Progresses, LatestWithin, Next, ReadsBack, Written, Run;
    if k == 0 {
    } else {
      StuckForever(Next(s, steps[0]), steps[1..], aim, k - 1);
      RunOfPrefix(s, steps, k);
    }
  }

  // ---- when a child that is listed twice holds the rollout back

  /** The latest revision lists `c`, and so do all that list `w`, which is not on the latest revision. */
  ghost predicate Entangled(s: State, c: Child, w: Child)
    requires |s| > 0
  {
    c.kind == w.kind && c in s[0] && w !in s[0] && w in Union(s) && forall l | l in s && w in l :: c in l
  }

  /** Both are wanted, `w` needs an update, and `c` is not up to date: it still gets what an older revision desires. */
  ghost predicate Blocking(inputs: Inputs, c: Child, w: Child) {
    c in inputs.Wanted() && w in inputs.Wanted() && w !in inputs.noop && c !in inputs.happy
  }

  /** A failed write does that: latest has its new list and got the child, the revision it came from has its old
      list, with another child that still waits. */
  lemma HalfMoveEntangles(s: State, inputs: Inputs, c: Child, w: Child, i: nat, n: nat)
    requires |s| > 0 && Exclusive(s) && 0 < n <= i < |s|
    requires Pass(s, inputs).1 == RolloutProgressing(c) && c in s[i]
    requires w in Pass(s, inputs).0[i] && w.kind == c.kind
    ensures Entangled(Stored(s, Pass(s, inputs).0, Writing(n)), c, w)
  {
    var after := Pass(s, inputs).0;
    var r := Stored(s, after, Writing(n));
    PassKeepsExclusive(s, inputs);
    assert after[0] !! after[i] && c in after[0];
    OneGuardedMove(s, inputs, w);
    assert r[i] == s[i];
    assert forall j | 0 <= j < |s| && j != i :: s[j] !! s[i];
    assert forall j | 0 <= j < |s| && w in r[j] :: j == i;
  }

  lemma EntangledPass(s: State, inputs: Inputs, c: Child, w: Child)
    requires |s| > 0 && Entangled(s, c, w) && Blocking(inputs, c, w)
    ensures Pass(s, inputs).1 == RolloutWaiting
    ensures var after := Pass(s, inputs).0;
      && c in after[0] && w !in after[0]
      && (forall i | 0 <= i < |s| && w in after[i] :: w in s[i] && c in after[i])
      && exists i :: 0 < i < |s| && w in after[i] && w in s[i]
  {
    var kept, moved := KeepAll(s, inputs), AfterFreeMoves(s, inputs);
    var i := FirstOf(s, w);
    assert First(s, 0, c) && c in kept[0] && w in kept[i];
    NextChildIsFirst(inputs.order, inputs.Wanted(), moved[0]);
    assert c in moved[0] && w !in moved[0] && w in moved[i];
    forall j | 0 <= j < |s| && w in moved[j] ensures w in s[j] && c in moved[j] {
      assert w in kept[j] && s[j] in s && c in kept[j];
    }
  }

  lemma StillEntangled(s: State, step: Step, c: Child, w: Child)
    requires |s| > 0 && ReadsBack(Written(s, step), step.readBack) && SameParent([step])
    requires Entangled(s, c, w) && Blocking(step.inputs, c, w)
    ensures Entangled(Next(s, step), c, w)
  {
    var after := Pass(s, step.inputs).0;
    var stored := Stored(s, after, step.fate);
    EntangledPass(s, step.inputs, c, w);
    forall l | l in stored && w in l ensures c in l {
      var j :| 0 <= j < |stored| && stored[j] == l;
      assert s[j] in s;
    }
    var i :| 0 < i < |s| && w in after[i] && w in s[i];
    assert w in stored[i] && stored[i] in stored[1..] by {
      assert stored[1..][i - 1] == stored[i];
    }
    NonEmptyMembers(stored[1..]);
    NextLatest(s, step);
    var r := Written(s, step);
    assert step in [step];
    assert r == [stored[0]] + NonEmpty(stored[1..]);
    ReadBackMembers(r, step.readBack, Next(s, step));
    assert stored[i] in Next(s, step);
  }

  lemma NonEmptyMembers(s: State)
    ensures forall l :: l in NonEmpty(s) <==> l in s && l != {}
  {
  }

  lemma ReadBackMembers(r: State, readBack: seq<nat>, next: State)
    requires ReadsBack(r, readBack) && |next| == |r| && forall i | 0 <= i < |r| :: next[i] == r[readBack[i]]
    ensures forall l :: l in next <==> l in r
  {
    forall l | l in r ensures l in next {
      var j :| 0 <= j < |r| && r[j] == l;
      assert j in readBack;
      var i :| 0 <= i < |readBack| && readBack[i] == j;
      assert next[i] == l;
    }
  }

  /** A child that a failed write left listed twice holds the rollout back: as long as it gets the content that the
      older revision desires, every pass waits, although children are left to move. */
  lemma {:induction false} HeldBack(s: State, steps: seq<Step>, c: Child, w: Child, k: nat)
    requires |s| > 0 && IsRun(s, steps) && k < |steps| && SameParent(steps)
    requires Entangled(s, c, w) && forall t | t in steps :: Blocking(t.inputs, c, w)
    ensures IsRun(s, steps[..k]) && Pass(Run(s, steps[..k]), steps[k].inputs).1 == RolloutWaiting
    decreases k
  {
    EntangledPass(s, steps[0].inputs, c, w);
    StillEntangled(s, steps[0], c, w);
    RunOfNone(s, steps);
    hide Pass, Entangled, Blocking, Next, ReadsBack, Written, Run;
    if k == 0 {
    } else {
      HeldBack(Next(s, steps[0]), steps[1..], c, w, k - 1);
      RunOfPrefix(s, steps, k);
    }
  }
}

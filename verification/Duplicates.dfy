/** What becomes of a rollout when a failed write left a child listed twice, from the objects' point of view. */
module Duplicates {
  import opened Basics
  import opened Json
  import opened Reconcile
  import opened ReconcileOnce
  import opened ReconcileFixpoint
  import opened Rollout
  import opened RolloutRuns
  import opened RevisionClaims
  import opened Aggregation
  import opened ClusterView

  /** The observed child was last given another content than the latest revision desires. */
  ghost predicate HasOtherContent(cluster: Cluster, c: Child) {
    && c in cluster.observed && c in cluster.desired && ApiObject(cluster.observed[c])
    && DesiredObject(cluster.desired[c], cluster.annKey)
    && var last := LastApplied(cluster.codec, cluster.observed[c], cluster.annKey);
      last.Some? && last.value != cluster.desired[c]
  }

  /** That is so after it was given the content that an older revision desires. */
  lemma OlderContentIsOther(cluster: Cluster, c: Child, o: Fields, l: Fields, older: Fields)
    requires Faithful(cluster.codec) && c in cluster.observed && c in cluster.desired
    requires ApiObject(o) && LastApplied(cluster.codec, o, cluster.annKey) == Some(l)
    requires DesiredObject(older, cluster.annKey) && DesiredObject(cluster.desired[c], cluster.annKey)
    requires older != cluster.desired[c]
    requires var sent := ApplyMerge(cluster.codec, cluster.annKey, cluster.sanitize, o, older);
      sent.Merged? && StoredAs(cluster.observed[c], sent.obj)
    ensures HasOtherContent(cluster, c)
  {
    StoredTellsDesired(cluster.codec, cluster.annKey, cluster.sanitize, o, l, older, cluster.observed[c]);
  }

  /** Such a child is never up to date. */
  lemma OtherContentIsNotUpToDate(cluster: Cluster, c: Child)
    requires Faithful(cluster.codec) && HasOtherContent(cluster, c)
    ensures !cluster.UpToDate(c)
  {
    var last := LastApplied(cluster.codec, cluster.observed[c], cluster.annKey).value;
    OtherDesiredIsSeen(cluster.codec, cluster.annKey, cluster.sanitize, cluster.observed[c], last, cluster.desired[c]);
  }

  /** The kind of `c` and `w` rolls, latest desires both, `w` is not up to date, and `c` has other content. */
  ghost predicate Outdated(cluster: Cluster, c: Child, w: Child) {
    && cluster.FromHook() && Faithful(cluster.codec) && HasOtherContent(cluster, c)
    && c.kind in cluster.rolling && w.kind in cluster.rolling && w in cluster.desired && !cluster.UpToDate(w)
  }

  /** While an older revision lists a child that the latest one lists too, and so decides its content, and keeps it
      listed for another child that still waits, every pass waits. */
  lemma DuplicateHoldsBack(s: State, steps: seq<Step>, clusters: seq<Cluster>, c: Child, w: Child, k: nat)
    requires |s| > 0 && IsRun(s, steps) && k < |steps| == |clusters| && SameParent(steps) && Entangled(s, c, w)
    requires forall i | 0 <= i < |steps| :: steps[i].inputs == clusters[i].View() && Outdated(clusters[i], c, w)
    ensures IsRun(s, steps[..k]) && Pass(Run(s, steps[..k]), clusters[k].View()).1 == RolloutWaiting
  {
    forall t | t in steps ensures Blocking(t.inputs, c, w) {
      var i :| 0 <= i < |steps| && steps[i] == t;
      OtherContentIsNotUpToDate(clusters[i], c);
    }
    HeldBack(s, steps, c, w, k);
  }

  // ---- from the lists and the hooks alone

  /** One pass with its objects: what it saw, what the hooks of the latest and of the older revisions answered, and the
      contents that were aggregated from that. */
  datatype Round = Round(cluster: Cluster, latest: Registry, older: seq<Revision>, final: Registry)

  /** A child and the content that the latest revision always desires for it. */
  datatype Aim = Aim(key: Key, content: Fields)
  {
    function Target(): Child {
      key.child
    }
  }

  /** The kind of the child rolls, the latest hook answers its content, older hooks answer something else for it while
      their revision lists it, all in one version. */
  ghost predicate Answers(round: Round, aim: Aim) {
    var cluster, c := round.cluster, aim.Target();
    && c.kind in cluster.rolling && c in cluster.desired && cluster.desired[c] == aim.content
    && DesiredObject(aim.content, cluster.annKey)
    && aim.key in round.latest && NoChoice(round.older, aim.key)
    && (forall rev | rev in round.older && c in Listed(rev.lists) ::
      && aim.key in rev.desired && rev.desired[aim.key] != aim.content
      && DesiredObject(rev.desired[aim.key], cluster.annKey))
    && Aggregated(round.latest, round.older, round.final, aim.key)
  }

  /** The pass of this round, and the older revisions whose contents are aggregated after it. */
  ghost predicate IsRound(s: State, step: Step, round: Round)
    requires |s| > 0
  {
    && round.cluster.FromHook() && Faithful(round.cluster.codec) && step.inputs == round.cluster.View()
    && ListsOf(round.older) == NonEmpty(Pass(s, step.inputs).0[1..])
  }

  /** By the next pass the child's object was left as it was, or it was updated with the aggregated content, or it was
      created with that. */
  ghost predicate Follows(round: Round, next: Cluster, aim: Aim) {
    var cluster, c := round.cluster, aim.Target();
    && next.codec == cluster.codec && next.annKey == cluster.annKey && next.sanitize == cluster.sanitize
    && (c in next.observed ==> (
      && ApiObject(next.observed[c])
      && (LastApplied(next.codec, next.observed[c], next.annKey) == Some(ContentOf(round.final, aim.key))
        || (c in cluster.observed && LastApplied(next.codec, next.observed[c], next.annKey)
          == LastApplied(cluster.codec, cluster.observed[c], cluster.annKey))
        || (c in cluster.observed && UpdatedWith(cluster, c, ContentOf(round.final, aim.key), next.observed[c])))))
  }

  function ContentOf(registry: Registry, key: Key): Fields {
    if key in registry then registry[key] else map[]
  }

  ghost predicate UpdatedWith(cluster: Cluster, c: Child, content: Fields, stored: Fields)
    requires c in cluster.observed
  {
    var sent := ApplyMerge(cluster.codec, cluster.annKey, cluster.sanitize, cluster.observed[c], content);
    sent.Merged? && StoredAs(stored, sent.obj)
  }

  /** If the child is observed, it was last given something else than the latest revision desires. */
  ghost predicate Elsewhere(cluster: Cluster, aim: Aim) {
    var c := aim.Target();
    c in cluster.observed ==>
      && ApiObject(cluster.observed[c])
      && var last := LastApplied(cluster.codec, cluster.observed[c], cluster.annKey);
        last.Some? && last.value != aim.content
  }

  lemma ElsewhereIsNotUpToDate(round: Round, aim: Aim)
    requires Faithful(round.cluster.codec) && Answers(round, aim) && Elsewhere(round.cluster, aim)
    ensures !round.cluster.UpToDate(aim.Target())
  {
    if aim.Target() in round.cluster.observed {
      OtherContentIsNotUpToDate(round.cluster, aim.Target());
    }
  }

  /** While an older revision lists the child, it is given what that one desires. */
  lemma GivenSomethingElse(round: Round, aim: Aim, i: nat)
    requires Answers(round, aim) && i < |round.older| && aim.Target() in Listed(round.older[i].lists)
    ensures aim.key in round.final && round.final[aim.key] != aim.content
    ensures DesiredObject(round.final[aim.key], round.cluster.annKey)
  {
    assert round.older[i] in round.older && round.older[i].Holds(aim.key);
    assert Held(round.older, |round.older|, aim.key);
    assert GivenByHolder(round.older, |round.older|, round.final, aim.key);
    var j :| 0 <= j < |round.older| && round.older[j].Holds(aim.key)
      && round.final[aim.key] == round.older[j].desired[aim.key];
    assert round.older[j] in round.older;
  }

  lemma StaysElsewhere(round: Round, next: Cluster, aim: Aim, i: nat)
    requires Faithful(round.cluster.codec) && Answers(round, aim) && Elsewhere(round.cluster, aim)
    requires i < |round.older| && aim.Target() in Listed(round.older[i].lists) && Follows(round, next, aim)
    ensures Elsewhere(next, aim)
  {
    var cluster, c := round.cluster, aim.Target();
    GivenSomethingElse(round, aim, i);
    var content := round.final[aim.key];
    if c in next.observed && c in cluster.observed && UpdatedWith(cluster, c, content, next.observed[c]) {
      var last := LastApplied(cluster.codec, cluster.observed[c], cluster.annKey).value;
      StoredTellsDesired(cluster.codec, cluster.annKey, cluster.sanitize, cluster.observed[c], last, content,
        next.observed[c]);
    }
    hide LastApplied, ApplyMerge, ApiObject, DesiredObject;
  }

  /** Some older revision still lists both children after the pass. */
  lemma BothListed(s: State, step: Step, round: Round, c: Child, w: Child) returns (i: nat)
    requires |s| > 0 && IsRound(s, step, round) && Entangled(s, c, w) && Blocking(step.inputs, c, w)
    ensures i < |round.older| && c in Listed(round.older[i].lists) && w in Listed(round.older[i].lists)
  {
    var after := Pass(s, step.inputs).0;
    EntangledPass(s, step.inputs, c, w);
    var j :| 0 < j < |s| && w in after[j] && w in s[j];
    assert after[1..][j - 1] == after[j] && after[j] in after[1..];
    NonEmptyMembers(after[1..]);
    assert after[j] in ListsOf(round.older);
    i :| 0 <= i < |round.older| && ListsOf(round.older)[i] == after[j];
  }

  /** One round: the pass waits, and afterwards everything is as before. */
  lemma RoundWaits(s: State, step: Step, round: Round, a: Aim, b: Aim)
    requires |s| > 0 && IsRound(s, step, round) && Entangled(s, a.Target(), b.Target())
    requires Answers(round, a) && Answers(round, b) && Elsewhere(round.cluster, a) && Elsewhere(round.cluster, b)
    ensures Blocking(step.inputs, a.Target(), b.Target()) && Pass(s, step.inputs).1 == RolloutWaiting
    ensures forall next | Follows(round, next, a) && Follows(round, next, b) ::
      Elsewhere(next, a) && Elsewhere(next, b)
  {
    var c, w := a.Target(), b.Target();
    ElsewhereIsNotUpToDate(round, a);
    ElsewhereIsNotUpToDate(round, b);
    assert Blocking(step.inputs, c, w);
    EntangledPass(s, step.inputs, c, w);
    var i := BothListed(s, step, round, c, w);
    forall next | Follows(round, next, a) && Follows(round, next, b) ensures Elsewhere(next, a) && Elsewhere(next, b) {
      StaysElsewhere(round, next, a, i);
      StaysElsewhere(round, next, b, i);
    }
  }

  /** A run with its objects. */
  ghost predicate IsStory(s: State, steps: seq<Step>, rounds: seq<Round>, a: Aim, b: Aim)
    requires |s| > 0 && IsRun(s, steps)
    decreases |steps|
  {
    |rounds| == |steps| &&
    (steps != [] ==>
      && IsRound(s, steps[0], rounds[0]) && Answers(rounds[0], a) && Answers(rounds[0], b)
      && (|rounds| > 1 ==> Follows(rounds[0], rounds[1].cluster, a) && Follows(rounds[0], rounds[1].cluster, b))
      && IsStory(Next(s, steps[0]), steps[1..], rounds[1..], a, b))
  }

  /** A child `a` that the latest revision and an older one both list holds the rollout back for as long as the older
      one is kept by another child `b`: while the hooks of the revisions answer different contents for the two, every
      pass waits, whatever becomes of the objects otherwise. */
  lemma {:induction false} StallsForever(s: State, steps: seq<Step>, rounds: seq<Round>, a: Aim, b: Aim, k: nat)
    requires |s| > 0 && IsRun(s, steps) && SameParent(steps) && k < |steps| && IsStory(s, steps, rounds, a, b)
    requires Entangled(s, a.Target(), b.Target())
    requires Elsewhere(rounds[0].cluster, a) && Elsewhere(rounds[0].cluster, b)
    ensures IsRun(s, steps[..k]) && Pass(Run(s, steps[..k]), steps[k].inputs).1 == RolloutWaiting
    decreases k
  {
    RoundWaits(s, steps[0], rounds[0], a, b);
    StillEntangled(s, steps[0], a.Target(), b.Target());
    RunOfNone(s, steps);
    hide Pass, Entangled, Blocking, Next, ReadsBack, Written, Run, Answers, Follows, Elsewhere, IsRound;
    if k == 0 {
    } else {
      assert rounds[1..][0] == rounds[1];
      StallsForever(Next(s, steps[0]), steps[1..], rounds[1..], a, b, k - 1);
      RunOfPrefix(s, steps, k);
    }
  }
}

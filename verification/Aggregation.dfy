/** The desired children of the whole parent: those of the latest revision, with the content that older
    revisions desire for the children they still list. */
module Aggregation {
  import opened Basics
  import opened Json
  import opened Rollout
  import opened RevisionClaims
  import opened RollingUpdate

  /** Children are filed under their API version too. */
  datatype Key = Key(version: string, child: Child)

  type Registry = map<Key, Fields>

  datatype Revision = Revision(lists: Groups, desired: Registry)
  {
    /** The revision lists the child and desires it in that API version. */
    predicate Holds(k: Key) {
      k.child in Listed(lists) && k in desired
    }

    /** It desires the child in no other version. */
    ghost predicate OneVersion(k: Key) {
      forall other | other in desired && other.child == k.child :: other == k
    }
  }

  /** Finds a child in whatever API version it is filed. With several versions any of them is found, as the
      order in which the registry is walked is not fixed. */
  method FindByGroupKindName(registry: Registry, c: Child) returns (r: Option<Key>)
    ensures r.None? <==> forall k | k in registry :: k.child != c
    ensures r.Some? ==> r.value.child == c && r.value in registry
  {
    var todo := registry.Keys;
    while todo != {}
      invariant todo <= registry.Keys && forall k | k in registry && k !in todo :: k.child != c
      decreases todo
    {
      var k :| k in todo;
      if k.child == c {
        return Some(k);
      }
      todo := todo - {k};
    }
    return None;
  }

  /** The content of a child is what it was before or what this revision desires, and the latter if the
      revision holds the child and leaves no choice of versions. */
  ghost predicate Overwritten(before: Registry, after: Registry, rev: Revision, seen: set<Child>) {
    && after.Keys == before.Keys
    && forall k | k in before ::
      var holds := k.child in seen && k in rev.desired;
      && (after[k] == before[k] || (holds && after[k] == rev.desired[k]))
      && (holds && rev.OneVersion(k) ==> after[k] == rev.desired[k])
  }

  method ReplaceChild(before: Registry, rev: Revision, c: Child, ghost start: Registry, ghost seen: set<Child>)
    returns (final: Registry)
    requires Overwritten(start, before, rev, seen)
    ensures Overwritten(start, final, rev, seen + {c})
  {
    final := before;
    var found := FindByGroupKindName(rev.desired, c);
    if found.Some? && found.value in final {
      final := final[found.value := rev.desired[found.value]];
    }
  }

  method Overwrite(before: Registry, rev: Revision) returns (final: Registry)
    ensures Overwritten(before, final, rev, Listed(rev.lists))
  {
    final := before;
    for i := 0 to |rev.lists|
      invariant Overwritten(before, final, rev, Listed(rev.lists[..i]))
    {
      var ck := rev.lists[i];
      ghost var done := Listed(rev.lists[..i]);
      ListedSnoc(rev.lists, i);
      ghost var seen: set<Child> := {};
      assert done + seen == done;
      for j := 0 to |ck.names|
        invariant seen == set n | n in ck.names[..j] :: Child(ck.kind, n)
        invariant Overwritten(before, final, rev, done + seen)
      {
        var c := Child(ck.kind, ck.names[j]);
        assert ck.names[..j + 1] == ck.names[..j] + [ck.names[j]];
        final := ReplaceChild(final, rev, c, before, done + seen);
        assert done + seen + {c} == done + (seen + {c});
        seen := seen + {c};
      }
      assert ck.names[..|ck.names|] == ck.names;
      assert seen == Listed([ck]);
    }
    assert rev.lists[..|rev.lists|] == rev.lists;
  }

  ghost predicate Held(older: seq<Revision>, n: nat, k: Key)
    requires n <= |older|
  {
    exists i :: 0 <= i < n && older[i].Holds(k)
  }

  /** The child has the content that some of the first revisions desire that hold it. */
  ghost predicate GivenByHolder(older: seq<Revision>, n: nat, final: Registry, k: Key)
    requires n <= |older| && k in final
  {
    exists i :: 0 <= i < n && older[i].Holds(k) && final[k] == older[i].desired[k]
  }

  /** The children stay those of the latest revision. Each has the content of the latest revision or of an older one
      that holds it: of an older one, if one holds it and in one version only, and of the last that does. */
  method Aggregate(latest: Registry, older: seq<Revision>) returns (final: Registry)
    ensures final.Keys == latest.Keys
    ensures forall k | k in latest :: Aggregated(latest, older, final, k)
  {
    final := latest;
    for n := 0 to |older|
      invariant final.Keys == latest.Keys
      invariant forall k | k in latest :: AggregatedSoFar(latest, older, n, final, k)
    {
      ghost var before := final;
      final := Overwrite(final, older[n]);
      forall k | k in latest ensures AggregatedSoFar(latest, older, n + 1, final, k) {
        OverwriteGives(older, n, latest, before, final, k);
      }
    }
  }

  lemma LastHolderBefore(older: seq<Revision>, n: nat, i: nat, k: Key)
    requires i < n < |older| && LastHolder(older, n + 1, i, k)
    ensures LastHolder(older, n, i, k) && !older[n].Holds(k)
  {
  }

  lemma OverwriteGives(older: seq<Revision>, n: nat, latest: Registry, before: Registry, after: Registry, k: Key)
    requires n < |older| && Overwritten(before, after, older[n], Listed(older[n].lists))
    requires AggregatedSoFar(latest, older, n, before, k)
    ensures AggregatedSoFar(latest, older, n + 1, after, k)
  {
    forall i | 0 <= i < n && LastHolder(older, n + 1, i, k) ensures after[k] == older[i].desired[k] {
      LastHolderBefore(older, n, i, k);
    }
    assert LastHolder(older, n + 1, n, k) ==> after[k] == older[n].desired[k];
    hide LastHolder;
    if after[k] == before[k] && GivenByHolder(older, n, before, k) {
      var i :| 0 <= i < n && older[i].Holds(k) && before[k] == older[i].desired[k];
      assert GivenByHolder(older, n + 1, after, k);
    } else if older[n].Holds(k) && after[k] == older[n].desired[k] {
      assert GivenByHolder(older, n + 1, after, k);
    } else {
      assert older[n] in older;
      assert NoChoice(older, k) ==> !older[n].Holds(k);
    }
  }

  /** The last of the first revisions that holds the child, and in one version only. */
  ghost predicate LastHolder(older: seq<Revision>, n: nat, i: nat, k: Key)
    requires i < n <= |older|
  {
    && older[i].Holds(k) && older[i].OneVersion(k)
    && forall j | i < j < n :: !older[j].Holds(k)
  }

  function ListsOf(older: seq<Revision>): (s: State)
    ensures |s| == |older|
  {
    seq(|older|, i requires 0 <= i < |older| => Listed(older[i].lists))
  }

  /** What `Aggregate` promises for one child. */
  ghost predicate Aggregated(latest: Registry, older: seq<Revision>, final: Registry, k: Key) {
    AggregatedSoFar(latest, older, |older|, final, k)
  }

  ghost predicate AggregatedSoFar(latest: Registry, older: seq<Revision>, n: nat, final: Registry, k: Key)
    requires n <= |older|
  {
    && k in latest && k in final
    && (final[k] == latest[k] || GivenByHolder(older, n, final, k))
    && (NoChoice(older, k) && Held(older, n, k) ==> GivenByHolder(older, n, final, k))
    && forall i | 0 <= i < n && LastHolder(older, n, i, k) :: final[k] == older[i].desired[k]
  }

  /** The older revisions that desire the child in this version desire it in no other. */
  ghost predicate NoChoice(older: seq<Revision>, k: Key) {
    forall rev | rev in older && k in rev.desired :: rev.OneVersion(k)
  }

  /** The content a child ends with when no child is listed twice: of the older revision that lists it if
      that one desires it in the same version, else of the latest. */
  lemma ContentOfExclusive(latest: Registry, older: seq<Revision>, final: Registry, k: Key)
    requires Exclusive(ListsOf(older)) && Aggregated(latest, older, final, k) && NoChoice(older, k)
    ensures forall rev | rev in older && k.child in Listed(rev.lists) ::
      final[k] == if k in rev.desired then rev.desired[k] else latest[k]
    ensures (forall rev | rev in older :: k.child !in Listed(rev.lists)) ==> final[k] == latest[k]
  {
    var s := ListsOf(older);
    forall i | 0 <= i < |older| && k.child in Listed(older[i].lists)
      ensures final[k] == if k in older[i].desired then older[i].desired[k] else latest[k]
    {
      assert forall j | 0 <= j < |older| && j != i :: s[j] !! s[i];
      assert forall j | 0 <= j < |older| && j != i :: s[j] == Listed(older[j].lists) && k.child !in s[j];
      assert older[i].Holds(k) ==> LastHolder(older, |older|, i, k);
    }
  }

  /** Aggregating exclusive lists gives every child that content, whatever the order of the older revisions. */
  method AggregateExclusive(latest: Registry, older: seq<Revision>) returns (final: Registry)
    requires Exclusive(ListsOf(older))
    ensures final.Keys == latest.Keys
    ensures forall k, rev | k in latest && NoChoice(older, k) && rev in older && k.child in Listed(rev.lists) ::
      final[k] == if k in rev.desired then rev.desired[k] else latest[k]
    ensures forall k |
      k in latest && NoChoice(older, k) && (forall rev | rev in older :: k.child !in Listed(rev.lists)) ::
      final[k] == latest[k]
  {
    final := Aggregate(latest, older);
    forall k | k in latest && NoChoice(older, k)
      ensures forall rev | rev in older && k.child in Listed(rev.lists) ::
        final[k] == if k in rev.desired then rev.desired[k] else latest[k]
      ensures (forall rev | rev in older :: k.child !in Listed(rev.lists)) ==> final[k] == latest[k]
    {
      ContentOfExclusive(latest, older, final, k);
    }
  }

  /** How far the guard of a pass reaches into the final contents: a wanted child that an older revision listed gets the
      content of the latest revision when its update is a no-op or it is the one reported move, but also, unguarded,
      when the older revision does not desire it in the version in which the latest does. Otherwise it keeps the
      content of the older one. */
  lemma GuardReachesContent(s: State, inputs: Inputs, latest: Registry, older: seq<Revision>, final: Registry, k: Key,
      i: nat)
    requires Exclusive(s) && |s| == |older| + 1 && ListsOf(older) == Pass(s, inputs).0[1..]
    requires Aggregated(latest, older, final, k) && NoChoice(older, k)
    requires i < |older| && k.child in s[i + 1] && k.child in inputs.Wanted()
    ensures var (after, condition) := Pass(s, inputs);
      if k.child in after[0] then
        final[k] == latest[k] && (k.child in inputs.noop || condition == RolloutProgressing(k.child))
      else
        final[k] == if k in older[i].desired then older[i].desired[k] else latest[k]
  {
    var after := Pass(s, inputs).0;
    WhereAfterPass(s, inputs, i + 1, k.child);
    PassKeepsExclusive(s, inputs);
    hide Pass, Aggregated, NoChoice;
    forall j | 0 <= j < |older| ensures Listed(older[j].lists) == after[j + 1] {
      assert ListsOf(older)[j] == after[j + 1];
    }
    RestExclusive(after);
    ContentOfExclusive(latest, older, final, k);
    assert older[i] in older;
  }

  lemma RestExclusive(s: State)
    requires Exclusive(s) && |s| > 0
    ensures Exclusive(s[1..])
  {
    forall a, b | 0 <= a < b < |s| - 1 ensures s[1..][a] !! s[1..][b] {
      assert s[a + 1] !! s[b + 1];
    }
  }
}

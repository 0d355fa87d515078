/** What a sync pass sees of the cluster, and whether it lets a rollout continue. */
module ClusterView {
  import opened Basics
  import opened Json
  import opened Reconcile
  import opened Rollout
  import opened RevisionClaims
  import opened RollingUpdate

  datatype Verdict = Proceed | Wait | Crash

  /** What a pass looks at: the kinds that roll, the children the latest revision desires in the order of
      its hook, the observed objects, and those of them that observed their own generation and pass the
      status checks. */
  datatype Cluster = Cluster(codec: Codec, annKey: string, sanitize: bool, rolling: set<ChildKind>, order: seq<Child>,
    desired: map<Child, Fields>, observed: map<Child, Fields>, healthy: set<Child>)
  {
    predicate FromHook() {
      desired.Keys == set c | c in order
    }

    /** Merging the desired state into the observed one changes nothing. */
    predicate UpToDate(c: Child) {
      && c in observed && c in desired
      && var outcome := ApplyMerge(codec, annKey, sanitize, observed[c], desired[c]);
        outcome.Merged? && outcome.obj == observed[c]
    }

    predicate Happy(c: Child) {
      UpToDate(c) && c in healthy
    }

    /** The child is observed, its last applied state can be read, and there is no update to merge into it. */
    predicate Crashes(c: Child) {
      c in observed && c !in desired && LastApplied(codec, observed[c], annKey).Some?
    }

    function Look(c: Child): Verdict {
      if Happy(c) then Proceed else if Crashes(c) then Crash else Wait
    }

    function View(): Inputs {
      var noop := set c | c in observed && UpToDate(c);
      Inputs(rolling, order, noop, noop * healthy)
    }

    method IsUpToDate(c: Child) returns (yes: bool)
      requires c in observed && c in desired
      ensures yes <==> UpToDate(c)
    {
      var apply := new Apply(codec, annKey, sanitize);
      var outcome := apply.Merge(observed[c], desired[c]);
      yes := outcome.Merged? && outcome.obj == observed[c];
    }

    method CheckChild(c: Child) returns (verdict: Verdict)
      ensures verdict == Look(c)
    {
      hide LastApplied;
      if c !in observed {
        return Wait;
      }
      if c !in desired {
        var last := LastApplied(codec, observed[c], annKey);
        return if last.None? then Wait else Crash;
      }
      var upToDate := IsUpToDate(c);
      return if upToDate && c in healthy then Proceed else Wait;
    }
  }

  /** The first verdict that is not to proceed. */
  function ScanNames(cluster: Cluster, kind: ChildKind, names: seq<string>): Verdict {
    if names == [] then Proceed
    else
      var verdict := cluster.Look(Child(kind, names[0]));
      if verdict == Proceed then ScanNames(cluster, kind, names[1..]) else verdict
  }

  function ScanGroup(cluster: Cluster, g: Group): Verdict {
    if g.kind in cluster.rolling then ScanNames(cluster, g.kind, g.names) else Proceed
  }

  function Scan(cluster: Cluster, groups: Groups): Verdict {
    if groups == [] then Proceed
    else
      var verdict := ScanGroup(cluster, groups[0]);
      if verdict == Proceed then Scan(cluster, groups[1..]) else verdict
  }

  method CheckGroup(ck: Group, cluster: Cluster) returns (verdict: Verdict)
    ensures verdict == ScanGroup(cluster, ck)
  {
    if ck.kind !in cluster.rolling {
      return Proceed;
    }
    assert ck.names[0..] == ck.names;
    for j := 0 to |ck.names|
      invariant ScanNames(cluster, ck.kind, ck.names) == ScanNames(cluster, ck.kind, ck.names[j..])
    {
      assert ck.names[j..][0] == ck.names[j] && ck.names[j..][1..] == ck.names[j + 1..];
      verdict := cluster.CheckChild(Child(ck.kind, ck.names[j]));
      if verdict != Proceed {
        return;
      }
    }
    return Proceed;
  }

  method ShouldContinueRolling(latest: ParentRevision, cluster: Cluster) returns (verdict: Verdict)
    ensures verdict == Scan(cluster, latest.children)
  {
    var groups := latest.children;
    assert groups[0..] == groups;
    for i := 0 to |groups|
      invariant Scan(cluster, groups) == Scan(cluster, groups[i..])
    {
      assert groups[i..][0] == groups[i] && groups[i..][1..] == groups[i + 1..];
      verdict := CheckGroup(groups[i], cluster);
      if verdict != Proceed {
        return;
      }
    }
    return Proceed;
  }

  // ---- what the verdict says of the listed children

  ghost predicate NamesHappy(cluster: Cluster, kind: ChildKind, names: seq<string>) {
    forall n | n in names :: cluster.Happy(Child(kind, n))
  }

  /** The name at an index is the first that is not happy, and crashes. */
  ghost predicate CrashName(cluster: Cluster, kind: ChildKind, names: seq<string>, j: nat) {
    j < |names| && cluster.Crashes(Child(kind, names[j])) && NamesHappy(cluster, kind, names[..j])
  }

  lemma CrashLater(cluster: Cluster, kind: ChildKind, names: seq<string>, j: nat)
    requires names != []
    ensures CrashName(cluster, kind, names, j + 1) <==>
      cluster.Happy(Child(kind, names[0])) && CrashName(cluster, kind, names[1..], j)
  {
    if j + 1 < |names| {
      assert names[..j + 1] == [names[0]] + names[1..][..j];
    }
  }

  lemma {:induction false} ScanNamesResult(cluster: Cluster, kind: ChildKind, names: seq<string>)
    ensures ScanNames(cluster, kind, names) == Proceed <==> NamesHappy(cluster, kind, names)
    ensures ScanNames(cluster, kind, names) == Crash <==> exists j: nat :: CrashName(cluster, kind, names, j)
  {
    if names == [] {
    } else {
      ScanNamesResult(cluster, kind, names[1..]);
      assert names == [names[0]] + names[1..];
      if j: nat :| CrashName(cluster, kind, names, j) && j > 0 {
        CrashLater(cluster, kind, names, j - 1);
      }
      if j: nat :| CrashName(cluster, kind, names[1..], j) {
        CrashLater(cluster, kind, names, j);
      }
      if cluster.Look(Child(kind, names[0])) == Crash {
        assert CrashName(cluster, kind, names, 0);
      }
      hide CrashName, Cluster.Happy, Cluster.Crashes;
    }
  }

  ghost predicate GroupHappy(cluster: Cluster, g: Group) {
    g.kind in cluster.rolling ==> NamesHappy(cluster, g.kind, g.names)
  }

  /** In list order the name at these indices is the first that is not happy, and crashes. */
  ghost predicate CrashAt(cluster: Cluster, groups: Groups, i: nat, j: nat) {
    && i < |groups| && groups[i].kind in cluster.rolling
    && CrashName(cluster, groups[i].kind, groups[i].names, j)
    && forall k | 0 <= k < i :: GroupHappy(cluster, groups[k])
  }

  lemma CrashAtLater(cluster: Cluster, groups: Groups, i: nat, j: nat)
    requires groups != []
    ensures CrashAt(cluster, groups, i + 1, j) <==>
      GroupHappy(cluster, groups[0]) && CrashAt(cluster, groups[1..], i, j)
  {
    assert forall k | 0 <= k < |groups| - 1 :: groups[1..][k] == groups[k + 1];
    if CrashAt(cluster, groups[1..], i, j) && GroupHappy(cluster, groups[0]) {
      forall k | 0 <= k < i + 1 ensures GroupHappy(cluster, groups[k]) {
        assert k > 0 ==> GroupHappy(cluster, groups[1..][k - 1]);
      }
    }
  }

  /** The rollout proceeds exactly when all rolling children that are listed are desired, up to date and healthy, and
      crashes exactly when the first one that is not is observed, readable and not desired. */
  lemma {:induction false} ScanResult(cluster: Cluster, groups: Groups)
    ensures Scan(cluster, groups) == Proceed <==> forall g | g in groups :: GroupHappy(cluster, g)
    ensures Scan(cluster, groups) == Crash <==> exists i: nat, j: nat :: CrashAt(cluster, groups, i, j)
  {
    if groups == [] {
    } else {
      hide CrashName, NamesHappy;
      var g, rest := groups[0], groups[1..];
      ScanNamesResult(cluster, g.kind, g.names);
      ScanResult(cluster, rest);
      assert groups == [g] + rest && g in groups && forall h | h in rest :: h in groups;
      assert ScanGroup(cluster, g) == Proceed <==> GroupHappy(cluster, g);
      if i: nat, j: nat :| CrashAt(cluster, groups, i, j) && i > 0 {
        CrashAtLater(cluster, groups, i - 1, j);
      }
      if i: nat, j: nat :| CrashAt(cluster, rest, i, j) {
        CrashAtLater(cluster, groups, i, j);
      }
      if ScanGroup(cluster, g) == Crash {
        var j: nat :| CrashName(cluster, g.kind, g.names, j);
        assert CrashAt(cluster, groups, 0, j);
      }
    }
  }

  lemma HappyGroups(cluster: Cluster, groups: Groups)
    requires cluster.FromHook() && forall c | c in Listed(groups) :: c.kind in cluster.rolling
    ensures (forall g | g in groups :: GroupHappy(cluster, g)) <==> MayContinue(Listed(groups), cluster.View())
  {
    var inputs := cluster.View();
    forall c ensures c in inputs.happy && c in inputs.Desired() <==> cluster.Happy(c) && c in inputs.Desired() {
    }
  }
}

/** One sync pass of the rolling update, from the objects the cluster shows to the lists of the revisions. */
module RollingPass {
  import opened Basics
  import opened Json
  import opened MergeFixpoint
  import opened Reconcile
  import opened ReconcileOnce
  import opened ReconcileFixpoint
  import opened Rollout
  import opened RevisionClaims
  import opened RollingUpdate
  import opened ClusterView
  import opened CrashOrder

  /** What the lists of the revisions hold, each list without repetitions. */
  ghost predicate Represents(revisions: seq<ParentRevision>, s: State)
    reads revisions
  {
    && |s| == |revisions|
    && forall i | 0 <= i < |s| :: WellFormed(revisions[i].children) && Listed(revisions[i].children) == s[i]
  }

  /** The claim map holds the wanted children that are listed, each with the first revision that lists it. */
  ghost predicate ClaimsMatch(claimed: map<Child, ParentRevision>, revisions: seq<ParentRevision>, s: State,
      wanted: set<Child>)
  {
    && |s| == |revisions|
    && claimed.Keys == wanted * Union(s)
    && forall i, c | 0 <= i < |s| && First(s, i, c) && c in claimed :: claimed[c] == revisions[i]
  }

  // ---- the free moves

  /** Gives a wanted child to the latest revision if nobody claims it or its update is a no-op. */
  method OfferChild(revisions: seq<ParentRevision>, before: map<Child, ParentRevision>, c: Child, cluster: Cluster,
      ghost s: State)
    returns (claimed: map<Child, ParentRevision>)
    requires |revisions| > 0 && Distinct(revisions) && Represents(revisions, s)
    requires ClaimsMatch(before, revisions, s, cluster.View().Wanted())
    requires c in cluster.View().Wanted() && c in cluster.desired
    modifies revisions
    ensures var r := MoveFirst(s, {c} * FreeMoves(s, cluster.View()));
      Represents(revisions, r) && ClaimsMatch(claimed, revisions, r, cluster.View().Wanted())
    ensures revisions[0].children == if c in FreeMoves(s, cluster.View()) then
      Added(old(revisions[0].children), c) else old(revisions[0].children)
    ensures c in Listed(revisions[0].children) <==> c in s[0] || c !in Union(s) || cluster.UpToDate(c)
  {
    var latest := revisions[0];
    claimed := before;
    MoveNone(s);
    GiveToLatest(before, revisions, s, cluster.View().Wanted(), c);
    if c !in claimed {
      assert {c} * FreeMoves(s, cluster.View()) == {c};
      AddToLatest(revisions, c, s);
      claimed := claimed[c := latest];
    } else {
      ghost var i := Claimer(claimed, revisions, s, cluster.View().Wanted(), c);
      var pr := claimed[c];
      if pr == latest || c !in cluster.observed {
        assert {c} * FreeMoves(s, cluster.View()) == {};
        return;
      }
      var upToDate := cluster.IsUpToDate(c);
      assert {c} * FreeMoves(s, cluster.View()) == if upToDate then {c} else {};
      if upToDate {
        MoveToLatest(revisions, pr, c, s, i);
        claimed := claimed[c := latest];
      }
    }
  }

  method AddToLatest(revisions: seq<ParentRevision>, c: Child, ghost s: State)
    requires |revisions| > 0 && Distinct(revisions) && Represents(revisions, s) && c !in Union(s)
    modifies revisions[0]
    ensures Represents(revisions, MoveFirst(s, {c}))
    ensures revisions[0].children == Added(old(revisions[0].children), c)
  {
    hide WellFormed, Listed, Added;
    AddedLists(revisions[0].children, c);
    revisions[0].AddChild(c);
  }

  method MoveToLatest(revisions: seq<ParentRevision>, pr: ParentRevision, c: Child, ghost s: State, ghost i: nat)
    requires Distinct(revisions) && Represents(revisions, s) && 0 < i < |revisions| && First(s, i, c)
    requires pr == revisions[i]
    modifies revisions[0], pr
    ensures Represents(revisions, MoveFirst(s, {c}))
    ensures revisions[0].children == Added(old(revisions[0].children), c)
  {
    hide WellFormed, Listed, Added, Removed;
    AddedLists(revisions[0].children, c);
    RemovedUnlists(pr.children, c);
    revisions[0].AddChild(c);
    pr.RemoveChild(c);
  }

  lemma MoveNone(s: State)
    requires |s| > 0
    ensures MoveFirst(s, {}) == s
  {
    assert forall i | 0 <= i < |s| :: MoveFirst(s, {})[i] == s[i];
  }

  lemma GiveToLatest(claimed: map<Child, ParentRevision>, revisions: seq<ParentRevision>, s: State,
      wanted: set<Child>, c: Child)
    requires ClaimsMatch(claimed, revisions, s, wanted) && c in wanted && |s| > 0
    ensures ClaimsMatch(claimed[c := revisions[0]], revisions, MoveFirst(s, {c}), wanted)
  {
    var r := MoveFirst(s, {c});
    assert Union(r) == Union(s) + {c} by {
      assert c in r[0];
      assert forall i | 0 <= i < |s| :: r[i] <= s[i] + {c} && s[i] <= r[i] + {c};
    }
    forall i, d | 0 <= i < |s| && First(r, i, d) ensures if d == c then i == 0 else First(s, i, d) {
      if d != c {
        forall j | 0 <= j < |s| ensures d in r[j] <==> d in s[j] {
        }
      } else {
        assert c in r[0];
      }
    }
  }

  /** Which revision claims a child: the first that lists it. */
  lemma Claimer(claimed: map<Child, ParentRevision>, revisions: seq<ParentRevision>, s: State, wanted: set<Child>,
      c: Child)
    returns (i: nat)
    requires Distinct(revisions) && ClaimsMatch(claimed, revisions, s, wanted) && c in claimed
    ensures i < |s| && First(s, i, c) && claimed[c] == revisions[i]
    ensures i > 0 <==> claimed[c] != revisions[0]
  {
    i := FirstOf(s, c);
  }

  /** Whether a child moves freely does not depend on which other children moved before. */
  lemma OneMoreMove(s: State, inputs: Inputs, todo: set<Child>, c: Child)
    requires |s| > 0 && c in todo
    ensures var free := FreeMoves(s, inputs);
      var moved := MoveFirst(s, free - todo);
      && (c in FreeMoves(moved, inputs) <==> c in free)
      && MoveFirst(moved, {c} * FreeMoves(moved, inputs)) == MoveFirst(s, free - (todo - {c}))
  {
    var free := FreeMoves(s, inputs);
    var moved := MoveFirst(s, free - todo);
    assert forall i | 0 <= i < |s| :: c in moved[i] <==> c in s[i];
    assert forall i | 0 <= i < |s| :: First(moved, i, c) <==> First(s, i, c);
    assert c in Union(moved) <==> c in Union(s);
    var now, all := MoveFirst(moved, {c} * FreeMoves(moved, inputs)), MoveFirst(s, free - (todo - {c}));
    forall i | 0 <= i < |s| ensures now[i] == all[i] {
    }
  }

  /** The loop over the desired children ends in the same lists whatever order it visits them in. */
  method OfferChildren(revisions: seq<ParentRevision>, before: map<Child, ParentRevision>, cluster: Cluster,
      ghost s: State)
    returns (claimed: map<Child, ParentRevision>)
    requires |revisions| > 0 && Distinct(revisions) && Represents(revisions, s)
    requires cluster.FromHook() && ClaimsMatch(before, revisions, s, cluster.View().Wanted())
    modifies revisions
    ensures var r := MoveFirst(s, FreeMoves(s, cluster.View()));
      Represents(revisions, r) && ClaimsMatch(claimed, revisions, r, cluster.View().Wanted())
    ensures Extends(old(revisions[0].children), revisions[0].children, FreeMoves(s, cluster.View()))
    ensures forall c | c in cluster.desired && c.kind in cluster.rolling && (cluster.UpToDate(c) || c !in Union(s)) ::
      c in Listed(revisions[0].children)
  {
    hide ClaimsMatch, Extends, Cluster.View, FreeMoves, MoveFirst;
    claimed := before;
    ghost var inputs := cluster.View();
    ghost var free := FreeMoves(s, inputs);
    ghost var start := revisions[0].children;
    var todo := cluster.desired.Keys;
    ghost var now := s;
    MoveNone(s);
    ExtendsItself(start);
    FreeAreDesired(s, cluster);
    assert free - todo == {};
    while todo != {}
      invariant todo <= cluster.desired.Keys
      invariant |now| == |s| && now == MoveFirst(s, free - todo)
      invariant Represents(revisions, now) && ClaimsMatch(claimed, revisions, now, inputs.Wanted())
      invariant Extends(start, revisions[0].children, free - todo)
      decreases todo
    {
      var c :| c in todo;
      ghost var latest := revisions[0].children;
      OneMoreMove(s, inputs, todo, c);
      FreeIsNew(now, cluster, c);
      assert free - (todo - {c}) == if c in free then free - todo + {c} else free - todo;
      if c in free {
        ExtendsMore(start, latest, free - todo, c);
      }
      if c.kind in cluster.rolling {
        claimed := OfferChild(revisions, claimed, c, cluster, now);
      } else {
        MoveNone(now);
        assert {c} * FreeMoves(now, inputs) == {};
      }
      now := MoveFirst(now, {c} * FreeMoves(now, inputs));
      todo := todo - {c};
    }
    assert free - {} == free;
    FreeAreTaken(s, cluster);
  }

  lemma FreeAreTaken(s: State, cluster: Cluster)
    requires |s| > 0 && cluster.FromHook()
    ensures forall c | c in cluster.desired && c.kind in cluster.rolling && (cluster.UpToDate(c) || c !in Union(s)) ::
      c in MoveFirst(s, FreeMoves(s, cluster.View()))[0]
  {
    hide Cluster.UpToDate;
    assert forall c :: cluster.UpToDate(c) ==> c in cluster.observed by {
      UpToDateIsObserved(cluster);
    }
  }

  lemma UpToDateIsObserved(cluster: Cluster)
    ensures forall c :: cluster.UpToDate(c) ==> c in cluster.observed
  {
  }

  lemma FreeAreDesired(s: State, cluster: Cluster)
    requires |s| > 0 && cluster.FromHook()
    ensures FreeMoves(s, cluster.View()) <= cluster.desired.Keys
  {
  }

  lemma FreeIsNew(s: State, cluster: Cluster, c: Child)
    requires |s| > 0 && cluster.FromHook()
    ensures c in FreeMoves(s, cluster.View()) ==> c !in s[0]
    ensures c in cluster.View().Wanted() <==> c in cluster.desired && c.kind in cluster.rolling
    ensures c in FreeMoves(s, cluster.View()) ==> c.kind in cluster.rolling
  {
  }

  // ---- the guarded move, and the whole pass

  /** Gives a child to the latest revision and takes it from all others. */
  method MoveChild(revisions: seq<ParentRevision>, c: Child, ghost s: State)
    requires |revisions| > 0 && Distinct(revisions) && Represents(revisions, s)
    modifies revisions
    ensures Represents(revisions, Move(s, {c}))
  {
    hide WellFormed, Listed, Added, Removed;
    AddedLists(revisions[0].children, c);
    revisions[0].AddChild(c);
    for i := 1 to |revisions|
      invariant forall j | 0 <= j < |s| :: WellFormed(revisions[j].children)
      invariant forall j | 0 <= j < i :: Listed(revisions[j].children) == Move(s, {c})[j]
      invariant forall j | i <= j < |s| :: Listed(revisions[j].children) == s[j]
    {
      RemovedUnlists(revisions[i].children, c);
      revisions[i].RemoveChild(c);
    }
  }

  /** Syncing the claims leaves the lists that the rollout keeps, and claims that match them. */
  method SyncClaims(revisions: seq<ParentRevision>, cluster: Cluster, ghost s: State)
    returns (claimed: map<Child, ParentRevision>)
    requires |revisions| > 0 && Distinct(revisions) && Represents(revisions, s)
    requires cluster.FromHook()
    modifies revisions
    ensures var kept := KeepAll(s, cluster.View());
      Represents(revisions, kept) && ClaimsMatch(claimed, revisions, kept, cluster.View().Wanted())
    ensures revisions[0].children == KeptGroups(old(revisions[0].children), cluster.rolling, cluster.desired.Keys, {})
  {
    hide KeepAll, KeptGroups, Listed, WellFormed, Cluster.UpToDate;
    ghost var inputs := cluster.View();
    ghost var lists := Lists(revisions);
    assert Sets(lists) == s;
    KeptStateLists(lists, inputs);
    AllClaimed(lists, inputs);
    NothingBefore(lists, cluster.rolling, cluster.desired.Keys);
    claimed := SyncRevisionClaims(revisions, cluster.rolling, cluster.desired.Keys);
    assert inputs.Desired() == cluster.desired.Keys;
    ghost var kept := KeepAll(s, inputs);
    ghost var after := KeptState(lists, inputs.rolling, inputs.Desired());
    assert Sets(after) == kept;
    forall i | 0 <= i < |s|
      ensures WellFormed(revisions[i].children) && Listed(revisions[i].children) == kept[i]
    {
      assert revisions[i].children == after[i] && after[i] in after;
      assert Sets(after)[i] == Listed(after[i]);
    }
    ClaimsStay(claimed, revisions, lists, inputs);
  }

  lemma ClaimsStay(claimed: map<Child, ParentRevision>, revisions: seq<ParentRevision>, lists: seq<Groups>,
      inputs: Inputs)
    requires |lists| == |revisions| && claimed.Keys == inputs.Wanted() * Union(Sets(lists))
    requires ClaimedByFirst(claimed, revisions, lists)
    ensures ClaimsMatch(claimed, revisions, KeepAll(Sets(lists), inputs), inputs.Wanted())
  {
    var s := Sets(lists);
    var kept := KeepAll(s, inputs);
    forall c ensures c in inputs.Wanted() * Union(s) <==> c in inputs.Wanted() * Union(kept) {
      if c in inputs.Wanted() && |s| > 0 {
        WantedStay(s, inputs, 0, c);
      }
    }
    forall i, c | 0 <= i < |s| && First(kept, i, c) && c in claimed ensures claimed[c] == revisions[i] {
      WantedStay(s, inputs, i, c);
      FirstListerIsFirst(lists, i, c);
    }
  }

  datatype Result = Done(condition: Condition) | Crashed

  /** Moves the first child that is not on the latest revision, if the rollout may continue. */
  method MoveNext(revisions: seq<ParentRevision>, claimed: map<Child, ParentRevision>, cluster: Cluster, ghost s: State)
    returns (result: Result)
    requires |revisions| > 0 && Distinct(revisions) && Represents(revisions, s)
    requires ClaimsMatch(claimed, revisions, s, cluster.View().Wanted())
    requires cluster.FromHook() && forall c | c in s[0] :: c.kind in cluster.rolling
    modifies revisions
    ensures var next := NextChild(cluster.order, cluster.View().Wanted(), s[0]);
      && (result.Crashed? <==> next != [] && Scan(cluster, old(revisions[0].children)) == Crash)
      && (result.Done? ==>
        if next == [] then result.condition == OnLatestRevision && Represents(revisions, s)
        else if MayContinue(s[0], cluster.View()) then
          result.condition == RolloutProgressing(next[0]) && Represents(revisions, Move(s, {next[0]}))
        else result.condition == RolloutWaiting && Represents(revisions, s))
  {
    hide WellFormed, Listed, Scan, ClaimsMatch, Cluster.UpToDate, Move, MayContinue;
    ghost var wanted := cluster.View().Wanted();
    var latest := revisions[0];
    assert cluster.order[0..] == cluster.order;
    for i := 0 to |cluster.order|
      invariant Represents(revisions, s) && latest.children == old(revisions[0].children)
      invariant NextChild(cluster.order, wanted, s[0]) == NextChild(cluster.order[i..], wanted, s[0])
    {
      var c := cluster.order[i];
      assert cluster.order[i..][0] == c && cluster.order[i..][1..] == cluster.order[i + 1..];
      assert c in wanted <==> c.kind in cluster.rolling;
      LatestClaims(claimed, revisions, s, wanted, c);
      if c.kind in cluster.rolling && (c !in claimed || claimed[c] != latest) {
        var verdict := ShouldContinueRolling(latest, cluster);
        ScanResult(cluster, latest.children);
        HappyGroups(cluster, latest.children);
        if verdict == Crash {
          return Crashed;
        }
        if verdict == Wait {
          return Done(RolloutWaiting);
        }
        MoveChild(revisions, c, s);
        return Done(RolloutProgressing(c));
      }
    }
    return Done(OnLatestRevision);
  }

  lemma LatestClaims(claimed: map<Child, ParentRevision>, revisions: seq<ParentRevision>, s: State,
      wanted: set<Child>, c: Child)
    requires |s| > 0 && Distinct(revisions) && ClaimsMatch(claimed, revisions, s, wanted)
    ensures c in wanted ==> (c in s[0] <==> c in claimed && claimed[c] == revisions[0])
  {
    if c in claimed {
      var i := FirstOf(s, c);
    }
    assert c in s[0] ==> First(s, 0, c);
  }

  /** The second loop finds a child to move, and of what the latest revision lists by then in list order the first name
      that is not happy crashes: it is observed, its last applied state can be read, and it is not desired. */
  ghost predicate WillCrash(lists: seq<Groups>, cluster: Cluster)
    requires |lists| > 0
  {
    var inputs := cluster.View();
    var kept := KeepAll(Sets(lists), inputs);
    && NextChild(cluster.order, inputs.Wanted(), AfterFreeMoves(Sets(lists), inputs)[0]) != []
    && exists i: nat, j: nat :: CrashWith(cluster, KeptGroups(lists[0], cluster.rolling, cluster.desired.Keys, {}),
      FreeMoves(kept, inputs), i, j)
  }

  /** The program's pass is a pass of the rollout, also when a child is listed twice. It crashes exactly when the
      lists before it say so. */
  method SyncRollingUpdate(revisions: seq<ParentRevision>, cluster: Cluster, ghost s: State) returns (result: Result)
    requires |revisions| > 0 && Distinct(revisions) && Represents(revisions, s)
    requires cluster.FromHook()
    modifies revisions
    ensures result.Crashed? <==> WillCrash(old(Lists(revisions)), cluster)
    ensures result.Done? ==> (
      && Represents(revisions, Pass(s, cluster.View()).0)
      && result.condition == Pass(s, cluster.View()).1)
    ensures result.Done? ==>
      forall c | c in cluster.desired && c.kind in cluster.rolling && (cluster.UpToDate(c) || c !in Union(s)) ::
        c in Listed(revisions[0].children)
  {
    hide ClaimsMatch, Extends, CrashAt, CrashWith, FreeMoves, KeptGroups, MoveFirst, Cluster.View, Listed, WellFormed;
    ghost var lists, inputs := Lists(revisions), cluster.View();
    assert Sets(lists) == s;
    var claimed := SyncClaims(revisions, cluster, s);
    ghost var kept, first := KeepAll(s, inputs), revisions[0].children;
    claimed := OfferChildren(revisions, claimed, cluster, kept);
    FreeAreDesired(kept, cluster);
    forall i: nat, j: nat {
      CrashWhenExtended(cluster, first, revisions[0].children, FreeMoves(kept, inputs), i, j);
    }
    ScanResult(cluster, revisions[0].children);
    LatestRolls(s, cluster);
    result := MoveNext(revisions, claimed, cluster, AfterFreeMoves(s, inputs));
    FreeStay(s, cluster);
  }

  lemma FreeStay(s: State, cluster: Cluster)
    requires |s| > 0 && cluster.FromHook()
    ensures forall c | c in cluster.desired && c.kind in cluster.rolling && (cluster.UpToDate(c) || c !in Union(s)) ::
      c in Pass(s, cluster.View()).0[0]
  {
    hide Cluster.UpToDate, Pass;
    UpToDateIsObserved(cluster);
    forall c | c in cluster.desired && c.kind in cluster.rolling && (cluster.UpToDate(c) || c !in Union(s))
      ensures c in Pass(s, cluster.View()).0[0]
    {
      assert c in cluster.View().Wanted();
      FreeChildrenMove(s, cluster.View(), c);
    }
  }

  lemma LatestRolls(s: State, cluster: Cluster)
    requires |s| > 0
    ensures forall c | c in AfterFreeMoves(s, cluster.View())[0] :: c.kind in cluster.rolling
    ensures cluster.View().order == cluster.order
  {
  }

  /** A start that crashes: the latest revision still lists `u`, which is observed and readable but no longer desired,
      next to a wanted `w` of the same kind, and an older one lists a wanted `c` that needs an update. */
  lemma CrashHappens(cluster: Cluster, u: Child, w: Child, c: Child)
    requires cluster.FromHook() && cluster.order == [w, c] && cluster.rolling == {u.kind}
    requires u.kind == w.kind == c.kind && u !in {w, c} && w != c
    requires cluster.Crashes(u) && !cluster.UpToDate(c)
    ensures WillCrash([[Group(u.kind, [u.name, w.name])], [Group(u.kind, [c.name])]], cluster)
  {
    var first, second := Group(u.kind, [u.name, w.name]), Group(u.kind, [c.name]);
    var lists, inputs := [[first], [second]], cluster.View();
    ListedOne(first);
    ListedOne(second);
    assert u == Child(u.kind, u.name) && w == Child(u.kind, w.name) && c == Child(u.kind, c.name);
    assert Listed([first]) == {u, w} && Listed([second]) == {c};
    assert Sets(lists) == [{u, w}, {c}];
    WaitsForOne(inputs, u, w, c);
    assert Claimable([first], cluster.rolling, cluster.desired.Keys) == {w};
    assert KeptGroups([first], cluster.rolling, cluster.desired.Keys, {}) == [first];
    assert CrashName(cluster, u.kind, first.names, 0);
    assert CrashWith(cluster, [first], FreeMoves(KeepAll(Sets(lists), inputs), inputs), 0, 0);
  }

  lemma ListedOne(g: Group)
    ensures forall c :: c in Listed([g]) <==> c.kind == g.kind && c.name in g.names
  {
    assert g in [g] && forall c: Child :: c == Child(c.kind, c.name);
  }

  lemma KeptOfTwo(inputs: Inputs, u: Child, w: Child, c: Child)
    requires inputs.Wanted() == {w, c} && u.kind == w.kind == c.kind && u !in {w, c} && w != c
    ensures KeepAll([{u, w}, {c}], inputs) == [{u, w}, {c}]
  {
    var s: State := [{u, w}, {c}];
    assert First(s, 0, w) && First(s, 1, c);
    assert Keep(s, 0, inputs) == {u, w} && Keep(s, 1, inputs) == {c};
  }

  lemma WaitsForOne(inputs: Inputs, u: Child, w: Child, c: Child)
    requires inputs.order == [w, c] && inputs.rolling == {u.kind} && u.kind == w.kind == c.kind
    requires u !in {w, c} && w != c && c !in inputs.noop
    ensures NextChild(inputs.order, inputs.Wanted(), AfterFreeMoves([{u, w}, {c}], inputs)[0]) == [c]
  {
    var s: State := [{u, w}, {c}];
    var kept := KeepAll(s, inputs);
    assert inputs.Wanted() == {w, c};
    KeptOfTwo(inputs, u, w, c);
    hide KeepAll;
    assert c in kept[1];
    assert FreeMoves(kept, inputs) == {};
    assert inputs.order[1..] == [c];
  }

  // ---- pruning

  /** Keeps the latest revision, and of the others those that list a child. */
  method PruneParentRevisions(revisions: seq<ParentRevision>, ghost s: State) returns (pruned: seq<ParentRevision>)
    requires |revisions| > 0 && Distinct(revisions) && Represents(revisions, s)
    ensures Distinct(pruned) && Represents(pruned, Prune(s))
    ensures pruned[0] == revisions[0] && forall pr | pr in pruned :: pr in revisions
  {
    hide WellFormed, Listed;
    pruned := [revisions[0]];
    ghost var now := [s[0]];
    for i := 1 to |revisions|
      invariant |pruned| > 0 && pruned[0] == revisions[0]
      invariant forall pr | pr in pruned :: pr in revisions[..i]
      invariant Distinct(pruned) && Represents(pruned, now)
      invariant now + NonEmpty(s[i..]) == Prune(s)
    {
      var pr := revisions[i];
      assert s[i..][0] == s[i] && s[i..][1..] == s[i + 1..];
      assert revisions[..i + 1] == revisions[..i] + [pr] && pr !in revisions[..i];
      var count := pr.CountChildren();
      if count > 0 {
        pruned := pruned + [pr];
        now := now + [s[i]];
      }
    }
  }

  // ---- children that were updated

  /** A child of the latest revision whose update was sent is up to date exactly if what is left to the controller
      settles, whatever the API server made of its system fields and its status; and happy if it is healthy too. */
  lemma UpdatedChildIsHappy(cluster: Cluster, c: Child, o: Fields, l: Fields)
    requires c in cluster.desired && c in cluster.observed
    requires Faithful(cluster.codec) && ApiObject(o) && DesiredObject(cluster.desired[c], cluster.annKey)
    requires LastApplied(cluster.codec, o, cluster.annKey) == Some(l) && OwnedRegular(o, l, cluster.desired[c])
    requires var sent := ApplyMerge(cluster.codec, cluster.annKey, cluster.sanitize, o, cluster.desired[c]);
      sent.Merged? && StoredAs(cluster.observed[c], sent.obj)
    ensures c in cluster.View().noop <==> OwnedSettles(o, l, cluster.desired[c])
    ensures c in cluster.View().happy <==> OwnedSettles(o, l, cluster.desired[c]) && c in cluster.healthy
  {
    var d, stored := cluster.desired[c], cluster.observed[c];
    ReconcileSettles(cluster.codec, cluster.annKey, cluster.sanitize, o, l, d, stored);
    hide ApplyMerge, OwnedSettles, OwnedRegular;
  }
}

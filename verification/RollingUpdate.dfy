/** The rolling update as the program runs it: loops that edit the lists of the revisions in place. */
module RollingUpdate {
  import opened Basics
  import opened Rollout
  import opened RevisionClaims

  class ParentRevision {
    var children: Groups

    constructor (children: Groups)
      ensures this.children == children
    {
      this.children := children;
    }

    method AddChild(c: Child)
      modifies this
      ensures children == Added(old(children), c)
    {
      var i := FindGroup(c.kind);
      if i == |children| {
        children := children + [Group(c.kind, [])];
      }
      var names := children[i].names;
      var pos := FindName(names, c.name);
      assert c.name in names <==> pos < |names|;
      assert i == |old(children)| ==> names + [c.name] == [c.name];
      if pos == |names| {
        children := children[i := Group(c.kind, names + [c.name])];
      }
      assert i == |old(children)| ==> children == old(children) + [Group(c.kind, [c.name])];
    }

    method RemoveChild(c: Child)
      modifies this
      ensures children == Removed(old(children), c)
    {
      var i := FindGroup(c.kind);
      if i == |children| {
        return;
      }
      var names := children[i].names;
      var pos := FindName(names, c.name);
      if pos < |names| {
        children := children[i := Group(c.kind, names[..pos] + names[pos + 1..])];
      }
    }

    method FindGroup(kind: ChildKind) returns (i: nat)
      ensures i == GroupIndex(children, kind)
    {
      i := 0;
      while i < |children| && children[i].kind != kind
        invariant i <= |children| && i + GroupIndex(children[i..], kind) == GroupIndex(children, kind)
      {
        i := i + 1;
      }
    }

    method CountChildren() returns (count: nat)
      ensures count > 0 <==> Listed(children) != {}
    {
      count := 0;
      for i := 0 to |children|
        invariant count > 0 <==> Listed(children[..i]) != {}
      {
        var g := children[i];
        ListedSnoc(children, i);
        assert g.names != [] ==> Child(g.kind, g.names[0]) in Listed([g]);
        count := count + |g.names|;
      }
      assert children[..|children|] == children;
    }
  }

  lemma ListedSnoc(groups: Groups, i: nat)
    requires i < |groups|
    ensures Listed(groups[..i + 1]) == Listed(groups[..i]) + Listed([groups[i]])
  {
    assert groups[..i + 1] == groups[..i] + [groups[i]];
  }

  method FindName(names: seq<string>, name: string) returns (pos: nat)
    ensures pos == IndexOf(names, name)
  {
    pos := 0;
    while pos < |names| && names[pos] != name
      invariant pos <= |names| && pos + IndexOf(names[pos..], name) == IndexOf(names, name)
    {
      pos := pos + 1;
    }
  }

  ghost function Lists(revisions: seq<ParentRevision>): (s: seq<Groups>)
    reads revisions
    ensures |s| == |revisions| && forall i | 0 <= i < |s| :: s[i] == revisions[i].children
  {
    seq(|revisions|, i requires 0 <= i < |revisions| reads revisions => revisions[i].children)
  }

  // ---- syncing the claims

  /** Claims the desired names of one group for a revision, unless they are claimed already. */
  method ClaimGroup(group: Group, rolling: set<ChildKind>, desired: set<Child>,
      before: map<Child, ParentRevision>, pr: ParentRevision)
    returns (claimed: map<Child, ParentRevision>, names: seq<string>)
    ensures claimed.Keys == before.Keys + Claimable([group], rolling, desired)
    ensures forall c | c in claimed :: claimed[c] == if c in before then before[c] else pr
    ensures names == [] <==> Claimable([group], rolling, desired) <= before.Keys
  {
    claimed, names := before, [];
    if group.kind !in rolling {
      assert Claimable([group], rolling, desired) == {};
      return;
    }
    ghost var seen: set<Child> := {};
    for i := 0 to |group.names|
      invariant seen == set n | n in group.names[..i] :: Child(group.kind, n)
      invariant claimed.Keys == before.Keys + seen * desired
      invariant forall c | c in claimed :: claimed[c] == if c in before then before[c] else pr
      invariant names == [] <==> seen * desired <= before.Keys
    {
      var c := Child(group.kind, group.names[i]);
      assert group.names[..i + 1] == group.names[..i] + [group.names[i]];
      seen := seen + {c};
      if c in desired && c !in claimed {
        claimed := claimed[c := pr];
        names := names + [c.name];
      }
    }
    assert group.names[..|group.names|] == group.names;
    assert seen == Listed([group]);
    assert seen * desired == Claimable([group], rolling, desired);
  }

  lemma NoGroups(rolling: set<ChildKind>, desired: set<Child>)
    ensures Claimable([], rolling, desired) == {}
    ensures forall taken :: KeptGroups([], rolling, desired, taken) == []
  {
  }

  lemma ClaimableSnoc(groups: Groups, i: nat, rolling: set<ChildKind>, desired: set<Child>)
    requires i < |groups|
    ensures Claimable(groups[..i + 1], rolling, desired)
      == Claimable(groups[..i], rolling, desired) + Claimable([groups[i]], rolling, desired)
  {
    ListedSnoc(groups, i);
  }

  lemma KeptGroupsStep(groups: Groups, i: nat, done: Groups, rolling: set<ChildKind>, desired: set<Child>,
      taken: set<Child>)
    requires i < |groups|
    ensures var claims := Claimable([groups[i]], rolling, desired);
      var rest := KeptGroups(groups[i + 1..], rolling, desired, taken + claims);
      done + KeptGroups(groups[i..], rolling, desired, taken)
      == (if claims <= taken then done else done + [groups[i]]) + rest
  {
    assert groups[i..][0] == groups[i] && groups[i..][1..] == groups[i + 1..];
  }

  /** Claims the children of one revision. */
  method ClaimChildren(groups: Groups, rolling: set<ChildKind>, desired: set<Child>,
      before: map<Child, ParentRevision>, pr: ParentRevision)
    returns (claimed: map<Child, ParentRevision>, children: Groups)
    ensures claimed.Keys == before.Keys + Claimable(groups, rolling, desired)
    ensures forall c | c in claimed :: claimed[c] == if c in before then before[c] else pr
    ensures children == KeptGroups(groups, rolling, desired, before.Keys)
  {
    claimed, children := before, [];
    hide Claimable;
    hide KeptGroups;
    NoGroups(rolling, desired);
    assert groups[..0] == [] && groups[0..] == groups;
    for i := 0 to |groups|
      invariant claimed.Keys == before.Keys + Claimable(groups[..i], rolling, desired)
      invariant forall c | c in claimed :: claimed[c] == if c in before then before[c] else pr
      invariant children + KeptGroups(groups[i..], rolling, desired, claimed.Keys)
        == KeptGroups(groups, rolling, desired, before.Keys)
    {
      var group := groups[i];
      ClaimableSnoc(groups, i, rolling, desired);
      KeptGroupsStep(groups, i, children, rolling, desired, claimed.Keys);
      var names;
      claimed, names := ClaimGroup(group, rolling, desired, claimed, pr);
      if |names| > 0 {
        children := children + [group];
      }
    }
    assert groups[..|groups|] == groups && groups[|groups|..] == [];
  }

  /** The claim map holds exactly the listed children that roll and are desired, each with the first
      revision that lists it, so the latest one wins. Of the groups, those without a claim are dropped, but
      the names that are not claimed stay in the others. */
  method SyncRevisionClaims(revisions: seq<ParentRevision>, rolling: set<ChildKind>, desired: set<Child>)
    returns (claimed: map<Child, ParentRevision>)
    requires Distinct(revisions)
    modifies revisions
    ensures Lists(revisions) == KeptState(old(Lists(revisions)), rolling, desired)
    ensures claimed.Keys == ClaimedBefore(old(Lists(revisions)), |revisions|, rolling, desired)
    ensures ClaimedByFirst(claimed, revisions, old(Lists(revisions)))
  {
    hide KeptGroups;
    hide Claimable;
    hide ClaimedBefore;
    ghost var s := Lists(revisions);
    claimed := map[];
    NothingBefore(s, rolling, desired);
    for i := 0 to |revisions|
      invariant forall j | 0 <= j < |revisions| ::
        revisions[j].children == if j < i then KeptState(s, rolling, desired)[j] else s[j]
      invariant claimed.Keys == ClaimedBefore(s, i, rolling, desired)
      invariant ClaimedByFirst(claimed, revisions, s)
    {
      var pr := revisions[i];
      FirstClaim(s, i, rolling, desired);
      var children;
      claimed, children := ClaimChildren(pr.children, rolling, desired, claimed, pr);
      pr.children := children;
    }
  }

  lemma NothingBefore(s: seq<Groups>, rolling: set<ChildKind>, desired: set<Child>)
    ensures ClaimedBefore(s, 0, rolling, desired) == {}
  {
  }

  ghost predicate ClaimedByFirst(claimed: map<Child, ParentRevision>, revisions: seq<ParentRevision>, s: seq<Groups>)
    requires |s| == |revisions|
  {
    forall c | c in claimed :: FirstLister(s, c) < |s| && claimed[c] == revisions[FirstLister(s, c)]
  }
}

/** The lists of child names that a revision keeps, one group a kind, and what editing them means for the
    set of children the revision lists. */
module RevisionClaims {
  import opened Basics
  import opened Rollout

  datatype Group = Group(kind: ChildKind, names: seq<string>)

  type Groups = seq<Group>

  function Listed(groups: Groups): set<Child> {
    set g, n | g in groups && n in g.names :: Child(g.kind, n)
  }

  /** One group a kind, and no name twice. */
  ghost predicate WellFormed(groups: Groups) {
    && (forall i, j | 0 <= i < j < |groups| :: groups[i].kind != groups[j].kind)
    && forall g | g in groups :: Distinct(g.names)
  }

  /** The key under which claims of a kind are filed tells kinds apart, as a kind has no dot in it. */
  function ClaimMapKey(k: ChildKind): string {
    k.kind + "." + k.apiGroup
  }

  lemma ClaimMapKeyInjective(a: ChildKind, b: ChildKind)
    requires '.' !in a.kind && '.' !in b.kind
    ensures ClaimMapKey(a) == ClaimMapKey(b) ==> a == b
  {
    var ka, kb := ClaimMapKey(a), ClaimMapKey(b);
    if ka == kb {
      assert ka[|a.kind|] == '.' && forall i | 0 <= i < |a.kind| :: ka[i] == a.kind[i] != '.';
      assert kb[|b.kind|] == '.' && forall i | 0 <= i < |b.kind| :: kb[i] == b.kind[i] != '.';
      assert |a.kind| == |b.kind|;
      assert a.kind == ka[..|a.kind|] == b.kind;
      assert a.apiGroup == ka[|a.kind| + 1..] == b.apiGroup;
    }
  }

  // ---- what the edits do to the groups

  /** The index of the first group of a kind, or the number of groups. */
  function GroupIndex(groups: Groups, kind: ChildKind): (i: nat)
    ensures i <= |groups| && (i < |groups| ==> groups[i].kind == kind)
    ensures forall j | 0 <= j < i :: groups[j].kind != kind
  {
    if groups == [] || groups[0].kind == kind then 0 else 1 + GroupIndex(groups[1..], kind)
  }

  function IndexOf(names: seq<string>, name: string): (i: nat)
    ensures i <= |names| && (i < |names| ==> names[i] == name)
    ensures forall j | 0 <= j < i :: names[j] != name
  {
    if names == [] || names[0] == name then 0 else 1 + IndexOf(names[1..], name)
  }

  function Added(groups: Groups, c: Child): Groups {
    var i := GroupIndex(groups, c.kind);
    if i == |groups| then groups + [Group(c.kind, [c.name])]
    else if c.name in groups[i].names then groups
    else groups[i := Group(c.kind, groups[i].names + [c.name])]
  }

  function Removed(groups: Groups, c: Child): Groups {
    var i := GroupIndex(groups, c.kind);
    if i == |groups| then groups
    else
      var names := groups[i].names;
      var pos := IndexOf(names, c.name);
      if pos == |names| then groups else groups[i := Group(c.kind, names[..pos] + names[pos + 1..])]
  }

  /** Replacing the group of a kind changes the listed children of that kind, and no others. */
  lemma ReplacedGroup(groups: Groups, i: nat, g: Group)
    requires WellFormed(groups) && i < |groups| && g.kind == groups[i].kind && Distinct(g.names)
    ensures WellFormed(groups[i := g])
    ensures forall c :: c in Listed(groups[i := g]) <==>
      if c.kind == g.kind then c.name in g.names else c in Listed(groups)
    ensures forall c: Child | c.kind == g.kind :: c in Listed(groups) <==> c.name in groups[i].names
  {
    var r := groups[i := g];
    assert r[i] == g && forall j | 0 <= j < |groups| && j != i :: r[j] == groups[j];
    forall c: Child | c.kind == g.kind ensures c in Listed(groups) <==> c.name in groups[i].names {
      assert groups[i] in groups && c == Child(c.kind, c.name);
    }
    forall c ensures c in Listed(r) <==> if c.kind == g.kind then c.name in g.names else c in Listed(groups) {
      assert c == Child(c.kind, c.name) && g in r;
      if c.kind != g.kind && c in Listed(groups) {
        var h :| h in groups && h.kind == c.kind && c.name in h.names;
        assert h in r;
      }
    }
  }

  lemma AddedLists(groups: Groups, c: Child)
    requires WellFormed(groups)
    ensures WellFormed(Added(groups, c)) && Listed(Added(groups, c)) == Listed(groups) + {c}
  {
    var i := GroupIndex(groups, c.kind);
    assert c == Child(c.kind, c.name);
    if i == |groups| {
      var g := Group(c.kind, [c.name]);
      assert forall h :: h in Added(groups, c) <==> h in groups || h == g;
    } else if c.name in groups[i].names {
      assert groups[i] in groups;
    } else {
      assert groups[i] in groups;
      ReplacedGroup(groups, i, Group(c.kind, groups[i].names + [c.name]));
    }
  }

  lemma RestOfNames(names: seq<string>, pos: nat)
    requires pos < |names| && Distinct(names)
    ensures var rest := names[..pos] + names[pos + 1..];
      Distinct(rest) && forall n :: n in rest <==> n in names && n != names[pos]
  {
    assert names == names[..pos] + [names[pos]] + names[pos + 1..];
  }

  lemma RemovedUnlists(groups: Groups, c: Child)
    requires WellFormed(groups)
    ensures WellFormed(Removed(groups, c)) && Listed(Removed(groups, c)) == Listed(groups) - {c}
  {
    var i := GroupIndex(groups, c.kind);
    if i == |groups| {
      assert c !in Listed(groups);
    } else {
      assert groups[i] in groups;
      var names := groups[i].names;
      var pos := IndexOf(names, c.name);
      ReplacedGroup(groups, i, groups[i]);
      if pos < |names| {
        var rest := names[..pos] + names[pos + 1..];
        RestOfNames(names, pos);
        ReplacedGroup(groups, i, Group(c.kind, rest));
      }
    }
  }

  /** Adding and removing leave all groups where they are, and the other names in their order. */
  lemma EditsKeepOrder(groups: Groups, c: Child)
    ensures var r := Added(groups, c);
      |groups| <= |r| && forall i | 0 <= i < |groups| :: r[i].kind == groups[i].kind && groups[i].names <= r[i].names
    ensures var r := Removed(groups, c);
      |r| == |groups| && forall i | 0 <= i < |groups| :: r[i].kind == groups[i].kind
    ensures var r := Removed(groups, c);
      forall i | 0 <= i < |groups| :: InOrderOf(r[i].names, groups[i].names)
  {
    hide InOrderOf;
    var r := Removed(groups, c);
    forall i | 0 <= i < |groups| ensures InOrderOf(r[i].names, groups[i].names) {
      var names := groups[i].names;
      var pos := IndexOf(names, c.name);
      WithoutOne(names, |names|);
      WithoutOne(names, pos);
    }
  }

  lemma WithoutOne(names: seq<string>, pos: nat)
    requires pos <= |names|
    ensures InOrderOf(if pos < |names| then names[..pos] + names[pos + 1..] else names, names)
  {
    var left := if pos < |names| then names[..pos] + names[pos + 1..] else names;
    var at := seq(|left|, i requires 0 <= i => if i < pos then i else i + 1);
    assert Selects(left, names, at);
  }

  // ---- which groups a sync of the claims keeps

  /** The children of these groups that a revision may claim: of a kind that rolls, and desired. */
  function Claimable(groups: Groups, rolling: set<ChildKind>, desired: set<Child>): set<Child> {
    set c | c in Listed(groups) && c.kind in rolling && c in desired
  }

  /** Keeps a group, with all its names, if it claims one that is not taken. */
  function KeptGroups(groups: Groups, rolling: set<ChildKind>, desired: set<Child>, taken: set<Child>): Groups {
    if groups == [] then []
    else
      var claims := Claimable([groups[0]], rolling, desired);
      (if claims <= taken then [] else [groups[0]]) + KeptGroups(groups[1..], rolling, desired, taken + claims)
  }

  /** What the first revisions claim together. */
  function ClaimedBefore(s: seq<Groups>, i: nat, rolling: set<ChildKind>, desired: set<Child>): set<Child>
    requires i <= |s|
  {
    set j, c | 0 <= j < i && c in Claimable(s[j], rolling, desired) :: c
  }

  function KeptState(s: seq<Groups>, rolling: set<ChildKind>, desired: set<Child>): (r: seq<Groups>)
    ensures |r| == |s|
  {
    seq(|s|, i requires 0 <= i < |s| =>
      KeptGroups(s[i], rolling, desired, ClaimedBefore(s, i, rolling, desired)))
  }

  /** A group is kept exactly if it has a claim that is not taken: the claims of other groups do not matter. */
  lemma {:induction false} KeptGroup(groups: Groups, rolling: set<ChildKind>, desired: set<Child>,
      taken: set<Child>, g: Group)
    requires WellFormed(groups)
    ensures g in KeptGroups(groups, rolling, desired, taken) <==>
      g in groups && !(Claimable([g], rolling, desired) <= taken)
  {
    if groups == [] {
    } else {
      var claims := Claimable([groups[0]], rolling, desired);
      WellFormedRest(groups);
      KeptGroup(groups[1..], rolling, desired, taken + claims, g);
      assert g in groups <==> g == groups[0] || g in groups[1..];
      if g in groups[1..] {
        assert forall c | c in Claimable([g], rolling, desired) :: c.kind == g.kind;
        assert Claimable([g], rolling, desired) !! claims;
      }
    }
  }

  /** The groups that are kept stay in their order. */
  lemma {:induction false} KeptGroupsInOrder(groups: Groups, rolling: set<ChildKind>, desired: set<Child>,
      taken: set<Child>) returns (at: seq<nat>)
    ensures Selects(KeptGroups(groups, rolling, desired, taken), groups, at)
  {
    if groups == [] {
      at := [];
    } else {
      var claims := Claimable([groups[0]], rolling, desired);
      var r := KeptGroups(groups[1..], rolling, desired, taken + claims);
      var rest := KeptGroupsInOrder(groups[1..], rolling, desired, taken + claims);
      SelectsLater(r, groups, rest);
      at := if claims <= taken then Later(rest) else [0] + Later(rest);
      assert [] + r == r;
    }
  }

  lemma WellFormedRest(groups: Groups)
    requires WellFormed(groups) && groups != []
    ensures WellFormed(groups[1..]) && forall g | g in groups[1..] :: g.kind != groups[0].kind
  {
  }

  lemma {:induction false} KeptGroupsWellFormed(groups: Groups, rolling: set<ChildKind>, desired: set<Child>,
      taken: set<Child>)
    requires WellFormed(groups)
    ensures WellFormed(KeptGroups(groups, rolling, desired, taken))
  {
    if groups == [] {
    } else {
      var claims := Claimable([groups[0]], rolling, desired);
      WellFormedRest(groups);
      KeptGroupsWellFormed(groups[1..], rolling, desired, taken + claims);
      forall g | g in KeptGroups(groups[1..], rolling, desired, taken + claims) ensures g in groups[1..] {
        KeptGroup(groups[1..], rolling, desired, taken + claims, g);
      }
    }
  }

  /** What stays listed: the names of every kind of which some child is claimed here and not taken. */
  lemma KeptGroupsList(groups: Groups, rolling: set<ChildKind>, desired: set<Child>, taken: set<Child>, c: Child)
    requires WellFormed(groups)
    ensures c in Listed(KeptGroups(groups, rolling, desired, taken)) <==>
      c in Listed(groups) && exists w :: w in Claimable(groups, rolling, desired) - taken && w.kind == c.kind
  {
    if c in Listed(groups) {
      var g :| g in groups && g.kind == c.kind && c.name in g.names;
      KeptGroup(groups, rolling, desired, taken, g);
      ClaimableOfKind(groups, g, rolling, desired);
    }
    if c in Listed(KeptGroups(groups, rolling, desired, taken)) {
      var g :| g in KeptGroups(groups, rolling, desired, taken) && g.kind == c.kind && c.name in g.names;
      KeptGroup(groups, rolling, desired, taken, g);
    }
  }

  lemma ClaimableOfKind(groups: Groups, g: Group, rolling: set<ChildKind>, desired: set<Child>)
    requires WellFormed(groups) && g in groups
    ensures Claimable([g], rolling, desired) == set w | w in Claimable(groups, rolling, desired) && w.kind == g.kind
    ensures forall c | c in Listed(groups) && c.kind == g.kind :: c.name in g.names
  {
  }

  // ---- all revisions together

  function Sets(s: seq<Groups>): State {
    seq(|s|, i requires 0 <= i < |s| => Listed(s[i]))
  }

  ghost predicate AllWellFormed(s: seq<Groups>) {
    forall groups | groups in s :: WellFormed(groups)
  }

  /** The first revision in the list that lists a child, or the number of revisions. */
  function FirstLister(s: seq<Groups>, c: Child): (i: nat)
    ensures i <= |s| && (i < |s| ==> c in Listed(s[i]))
    ensures forall j | 0 <= j < i :: c !in Listed(s[j])
  {
    if s == [] || c in Listed(s[0]) then 0 else 1 + FirstLister(s[1..], c)
  }

  /** A child that a revision adds to what is claimed is listed there first. */
  lemma FirstClaim(s: seq<Groups>, i: nat, rolling: set<ChildKind>, desired: set<Child>)
    requires i < |s|
    ensures ClaimedBefore(s, i + 1, rolling, desired)
      == ClaimedBefore(s, i, rolling, desired) + Claimable(s[i], rolling, desired)
    ensures forall c | c in Claimable(s[i], rolling, desired) - ClaimedBefore(s, i, rolling, desired) ::
      FirstLister(s, c) == i
  {
    forall c | c in Claimable(s[i], rolling, desired) - ClaimedBefore(s, i, rolling, desired)
      ensures FirstLister(s, c) == i
    {
      assert forall j | 0 <= j < i :: c in Listed(s[j]) ==> c in Claimable(s[j], rolling, desired);
    }
  }

  lemma AllClaimed(s: seq<Groups>, inputs: Inputs)
    ensures ClaimedBefore(s, |s|, inputs.rolling, inputs.Desired()) == inputs.Wanted() * Union(Sets(s))
  {
    var claimed := ClaimedBefore(s, |s|, inputs.rolling, inputs.Desired());
    forall c ensures c in claimed <==> c in inputs.Wanted() && c in Union(Sets(s)) {
      if c in claimed {
        var j :| 0 <= j < |s| && c in Claimable(s[j], inputs.rolling, inputs.Desired());
        assert c in Sets(s)[j];
      }
      if c in inputs.Wanted() && c in Union(Sets(s)) {
        var j :| 0 <= j < |s| && c in Sets(s)[j];
        assert c in Claimable(s[j], inputs.rolling, inputs.Desired());
      }
    }
  }

  // ---- when syncing the claims makes the lists exclusive

  /** A revision claims some child of a kind, being the first to list it. */
  ghost predicate ClaimsFirst(s: seq<Groups>, i: nat, kind: ChildKind, inputs: Inputs)
    requires i < |s|
  {
    exists w :: w in Listed(s[i]) && w in inputs.Wanted() && w.kind == kind && FirstLister(s, w) == i
  }

  lemma StaysListed(s: seq<Groups>, i: nat, c: Child, inputs: Inputs)
    requires AllWellFormed(s) && i < |s|
    ensures c in Listed(KeptState(s, inputs.rolling, inputs.Desired())[i]) <==>
      c in Listed(s[i]) && ClaimsFirst(s, i, c.kind, inputs)
  {
    var taken := ClaimedBefore(s, i, inputs.rolling, inputs.Desired());
    KeptGroupsList(s[i], inputs.rolling, inputs.Desired(), taken, c);
    forall w | w in Claimable(s[i], inputs.rolling, inputs.Desired())
      ensures w in taken <==> FirstLister(s, w) != i
    {
      FirstClaim(s, i, inputs.rolling, inputs.Desired());
    }
  }

  lemma FirstListerIsFirst(s: seq<Groups>, i: nat, c: Child)
    requires i < |s|
    ensures FirstLister(s, c) == i <==> First(Sets(s), i, c)
  {
    assert forall j | 0 <= j < |s| :: Sets(s)[j] == Listed(s[j]);
  }

  /** Syncing the claims keeps what the rollout keeps. */
  lemma KeptStateLists(s: seq<Groups>, inputs: Inputs)
    requires AllWellFormed(s)
    ensures AllWellFormed(KeptState(s, inputs.rolling, inputs.Desired()))
    ensures Sets(KeptState(s, inputs.rolling, inputs.Desired())) == KeepAll(Sets(s), inputs)
  {
    var kept := KeptState(s, inputs.rolling, inputs.Desired());
    forall i | 0 <= i < |s|
      ensures WellFormed(kept[i])
      ensures Sets(kept)[i] == KeepAll(Sets(s), inputs)[i]
    {
      KeptGroupsWellFormed(s[i], inputs.rolling, inputs.Desired(),
        ClaimedBefore(s, i, inputs.rolling, inputs.Desired()));
      forall c ensures c in Listed(kept[i]) <==> c in Keep(Sets(s), i, inputs) {
        StaysListed(s, i, c, inputs);
        forall w {
          FirstListerIsFirst(s, i, w);
        }
      }
    }
  }

  /** Syncing the claims leaves each child with at most one revision exactly if, whenever two revisions list
      a child, only one of them claims some child of that kind first. */
  lemma SyncedExclusive(s: seq<Groups>, inputs: Inputs)
    requires AllWellFormed(s)
    ensures Exclusive(Sets(KeptState(s, inputs.rolling, inputs.Desired()))) <==>
      forall i, j, c | 0 <= i < j < |s| && c in Listed(s[i]) && c in Listed(s[j]) ::
        !(ClaimsFirst(s, i, c.kind, inputs) && ClaimsFirst(s, j, c.kind, inputs))
  {
    var kept := Sets(KeptState(s, inputs.rolling, inputs.Desired()));
    forall i, c | 0 <= i < |s|
      ensures c in kept[i] <==> c in Listed(s[i]) && ClaimsFirst(s, i, c.kind, inputs)
    {
      StaysListed(s, i, c, inputs);
    }
  }

  /** So a child that two revisions list can stay with both: the claims are exclusive, the lists are not. */
  lemma DuplicatesCanStay(a: Child, b: Child)
    requires a != b && a.kind == b.kind
    ensures var s := [[Group(a.kind, [a.name])], [Group(a.kind, [a.name, b.name])]];
      var inputs := Inputs({a.kind}, [a, b], {}, {});
      AllWellFormed(s) && a in Listed(KeptState(s, inputs.rolling, inputs.Desired())[0])
        && a in Listed(KeptState(s, inputs.rolling, inputs.Desired())[1])
  {
    var first, second := Group(a.kind, [a.name]), Group(a.kind, [a.name, b.name]);
    var s, inputs := [[first], [second]], Inputs({a.kind}, [a, b], {}, {});
    assert a == Child(a.kind, a.name) && b == Child(a.kind, b.name);
    assert first in s[0] && second in s[1] && a.name in second.names && b.name in second.names;
    assert FirstLister(s, a) == 0;
    assert b !in Listed(s[0]) && FirstLister(s, b) == 1;
    StaysListed(s, 0, a, inputs);
    StaysListed(s, 1, a, inputs);
  }
}

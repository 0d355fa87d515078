/** When a rolling update crashes, told from the lists before the pass: the order in which the free moves are made,
    which is not fixed, does not matter. */
module CrashOrder {
  import opened Basics
  import opened Rollout
  import opened RevisionClaims
  import opened ClusterView

  /** The lists after these children were added, in some order. */
  ghost predicate Extends(before: Groups, after: Groups, added: set<Child>) {
    && |before| <= |after|
    && (forall i | 0 <= i < |before| :: GroupExtends(before[i], after[i], added))
    && forall i, n | |before| <= i < |after| && n in after[i].names :: Child(after[i].kind, n) in added
  }

  ghost predicate GroupExtends(before: Group, after: Group, added: set<Child>) {
    && after.kind == before.kind && before.names <= after.names
    && (forall j | |before.names| <= j < |after.names| :: Child(after.kind, after.names[j]) in added)
    && forall c | c in added && c.kind == before.kind :: c.name in after.names
  }

  lemma ExtendsItself(groups: Groups)
    ensures Extends(groups, groups, {})
  {
  }

  lemma ExtendsMore(before: Groups, after: Groups, added: set<Child>, c: Child)
    requires Extends(before, after, added) && WellFormed(after) && c !in Listed(after)
    ensures Extends(before, Added(after, c), added + {c})
  {
    var i := GroupIndex(after, c.kind);
    if i < |after| {
      assert after[i] in after && Child(c.kind, c.name) == c;
      assert c.name !in after[i].names;
    }
    var r := Added(after, c);
    forall k | 0 <= k < |before| ensures GroupExtends(before[k], r[k], added + {c}) {
      assert GroupExtends(before[k], after[k], added);
      assert before[k].kind == c.kind ==> k == i;
    }
    forall k, n | |before| <= k < |r| && n in r[k].names ensures Child(r[k].kind, n) in added + {c} {
      assert k < |after| ==> forall m | m in after[k].names :: Child(after[k].kind, m) in added;
    }
  }

  /** The name at these indices crashes, all before it in list order are happy, and so are the added children of the
      kinds before it. */
  ghost predicate CrashWith(cluster: Cluster, groups: Groups, added: set<Child>, i: nat, j: nat) {
    && i < |groups| && groups[i].kind in cluster.rolling
    && CrashName(cluster, groups[i].kind, groups[i].names, j)
    && forall k | 0 <= k < i :: GroupHappyWith(cluster, groups[k], added)
  }

  ghost predicate GroupHappyWith(cluster: Cluster, g: Group, added: set<Child>) {
    && GroupHappy(cluster, g)
    && (g.kind in cluster.rolling ==> forall c | c in added && c.kind == g.kind :: cluster.Happy(c))
  }

  lemma HappyWhenExtended(cluster: Cluster, before: Group, after: Group, added: set<Child>)
    requires GroupExtends(before, after, added)
    ensures GroupHappy(cluster, after) <==> GroupHappyWith(cluster, before, added)
  {
    hide Cluster.Happy;
    assert forall n | n in before.names :: n in after.names;
    assert forall c: Child | c.kind == after.kind :: c == Child(after.kind, c.name);
    if GroupHappyWith(cluster, before, added) {
      forall n | n in after.names && after.kind in cluster.rolling ensures cluster.Happy(Child(after.kind, n)) {
        var j :| 0 <= j < |after.names| && after.names[j] == n;
        if j < |before.names| {
          assert before.names[j] == n;
        } else {
          assert Child(after.kind, after.names[j]) in added;
        }
      }
    }
  }

  lemma CrashNameWhenExtended(cluster: Cluster, before: Group, after: Group, added: set<Child>, j: nat)
    requires GroupExtends(before, after, added) && added <= cluster.desired.Keys
    ensures CrashName(cluster, after.kind, after.names, j) <==> CrashName(cluster, before.kind, before.names, j)
  {
    if j < |before.names| {
      assert after.names[..j] == before.names[..j] && after.names[j] == before.names[j];
    } else if j < |after.names| {
      assert Child(after.kind, after.names[j]) in added;
    }
  }

  lemma CrashWhenExtended(cluster: Cluster, before: Groups, after: Groups, added: set<Child>, i: nat, j: nat)
    requires Extends(before, after, added) && added <= cluster.desired.Keys
    ensures CrashAt(cluster, after, i, j) <==> CrashWith(cluster, before, added, i, j)
  {
    hide CrashName, GroupHappy, GroupHappyWith, GroupExtends;
    forall k | 0 <= k < |before| {
      HappyWhenExtended(cluster, before[k], after[k], added);
    }
    if i < |before| {
      CrashNameWhenExtended(cluster, before[i], after[i], added, j);
      assert after[i].kind == before[i].kind by {
        SameKind(before[i], after[i], added);
      }
    } else if i < |after| {
      NoCrashAmongAdded(cluster, after[i], added, j);
    }
  }

  lemma SameKind(before: Group, after: Group, added: set<Child>)
    requires GroupExtends(before, after, added)
    ensures after.kind == before.kind
  {
  }

  lemma NoCrashAmongAdded(cluster: Cluster, g: Group, added: set<Child>, j: nat)
    requires added <= cluster.desired.Keys && forall n | n in g.names :: Child(g.kind, n) in added
    ensures !CrashName(cluster, g.kind, g.names, j)
  {
  }
}

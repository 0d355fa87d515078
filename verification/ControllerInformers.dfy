/** The subscriptions of a composite controller: made when it is created, given back when that fails or
    when it stops. */
module ControllerInformers {
  import opened Basics
  import opened Informers

  /** What a controller subscribes to is told by the keys of its parent resource and its child resources. */
  datatype Spec = Spec(parent: string, children: seq<string>)

  /** The subscription to a resource can be made: its informer runs already, or the resource is known. */
  predicate Subscribable(p: Pool, key: string, reachable: set<string>) {
    key in p.shared || key in reachable
  }

  /** How many child subscriptions are made in order, when that many are made already. */
  function Made(p: Pool, spec: Spec, reachable: set<string>, i: nat): (n: nat)
    requires i <= |spec.children|
    ensures i <= n <= |spec.children|
    ensures forall j | i <= j < n :: spec.children[j] == spec.parent || Subscribable(p, spec.children[j], reachable)
    ensures n < |spec.children| ==> !Subscribable(p, spec.children[n], reachable) && spec.children[n] != spec.parent
    decreases |spec.children| - i
  {
    if i < |spec.children| && (spec.children[i] == spec.parent || Subscribable(p, spec.children[i], reachable)) then
      Made(p, spec, reachable, i + 1)
    else i
  }

  lemma MadeTheSame(p: Pool, r: Pool, spec: Spec, reachable: set<string>, i: nat)
    requires i <= |spec.children| && r.shared.Keys == p.shared.Keys + {spec.parent}
    ensures Made(r, spec, reachable, i) == Made(p, spec, reachable, i)
    decreases |spec.children| - i
  {
  }

  /** The pool grew: no informer that ran was stopped or replaced. */
  ghost predicate Grown(before: Pool, after: Pool) {
    && before.keys <= after.keys
    && forall key | key in before.shared :: key in after.shared && after.shared[key] == before.shared[key]
  }

  /** Counts changed by these subscriptions made, and these closed. */
  ghost predicate Counted(before: Pool, after: Pool, made: multiset<string>, closed: multiset<string>) {
    forall key :: after.Count(key) == before.Count(key) + made[key] - closed[key]
  }

  ghost predicate Registered(p: Pool, informers: map<string, nat>) {
    forall key | key in informers :: key in p.shared && p.shared[key] == informers[key]
  }

  /** No informer was started or replaced. */
  ghost predicate Shrunk(before: Pool, after: Pool) {
    && after.keys == before.keys
    && forall key | key in after.shared :: key in before.shared && before.shared[key] == after.shared[key]
  }

  class ParentController {
    const parent: string
    const parentInformer: nat
    const childInformers: map<string, nat>

    constructor (parent: string, parentInformer: nat, childInformers: map<string, nat>)
      ensures this.parent == parent && this.parentInformer == parentInformer && this.childInformers == childInformers
    {
      this.parent, this.parentInformer, this.childInformers := parent, parentInformer, childInformers;
    }

    /** The controller's informers are the running ones, and each of its subscriptions is counted. */
    ghost predicate Subscribes(p: Pool) {
      && Registered(p, childInformers) && Registered(p, map[parent := parentInformer])
      && (parent in childInformers ==> p.Count(parent) > 1)
    }

    /** Gives all subscriptions back. */
    method Stop(f: SharedInformerFactory)
      requires Sane(f.Contents()) && Subscribes(f.Contents())
      modifies f
      ensures Sane(f.Contents()) && Shrunk(old(f.Contents()), f.Contents())
      ensures Counted(old(f.Contents()), f.Contents(), multiset{}, multiset(childInformers.Keys) + multiset{parent})
    {
      CloseChildren(f, childInformers);
      ClosesParent(old(f.Contents()), f.Contents(), childInformers, parent, parentInformer);
      var panicked := f.Close(parentInformer);
    }
  }

  /** The parent's informer runs on until its own subscription is closed. */
  lemma ClosesParent(before: Pool, p: Pool, informers: map<string, nat>, parent: string, id: nat)
    requires Sane(before) && Sane(p) && Shrunk(before, p)
    requires Counted(before, p, multiset{}, multiset(informers.Keys))
    requires Registered(before, map[parent := id]) && (parent in informers ==> before.Count(parent) > 1)
    ensures id < |p.keys| && Closed(p, id).Some?
    ensures var r := Closed(p, id).value;
      && Sane(r) && Shrunk(before, r)
      && Counted(before, r, multiset{}, multiset(informers.Keys) + multiset{parent})
  {
    assert map[parent := id][parent] == id;
    assert p.Count(parent) > 0;
    ClosedPool(p, id);
  }

  lemma SubscribeRegisters(p: Pool, informers: map<string, nat>, key: string, reachable: bool)
    requires Registered(p, informers)
    ensures var (r, id) := Subscribed(p, key, reachable);
      id.Some? ==> r.shared.Keys == p.shared.Keys + {key} && Registered(r, informers[key := id.value])
  {
  }

  lemma SubscribeGrows(before: Pool, p: Pool, made: multiset<string>, key: string, reachable: bool)
    requires Sane(p) && Grown(before, p) && Counted(before, p, made, multiset{})
    ensures var (r, id) := Subscribed(p, key, reachable);
      && Sane(r)
      && (id.None? <==> key !in p.shared && !reachable)
      && (id.None? ==> r == p)
      && (id.Some? ==> Grown(before, r) && Counted(before, r, made + multiset{key}, multiset{}))
  {
    SubscribedPool(p, key, reachable);
    var (r, id) := Subscribed(p, key, reachable);
    if id.Some? {
      MoreCounted(before, p, r, made, key);
    }
  }

  lemma MoreCounted(before: Pool, p: Pool, r: Pool, made: multiset<string>, key: string)
    requires Counted(before, p, made, multiset{})
    requires forall k :: r.Count(k) == p.Count(k) + if k == key then 1 else 0
    ensures Counted(before, r, made + multiset{key}, multiset{})
  {
  }

  /** Subscribes to the child resources. The registrar holds one informer a resource, so that a second
      subscription to the same resource takes the place of the first. */
  method SubscribeChildren(f: SharedInformerFactory, spec: Spec, reachable: set<string>)
    returns (ok: bool, informers: map<string, nat>)
    requires Sane(f.Contents()) && spec.parent in f.shared
    modifies f
    ensures var before, after := old(f.Contents()), f.Contents();
      var n := Made(before, spec, reachable, 0);
      && (ok <==> n == |spec.children|)
      && Sane(after) && Grown(before, after) && Registered(after, informers)
      && informers.Keys == Distinctly(spec.children[..n])
      && Counted(before, after, multiset(spec.children[..n]), multiset{})
  {
    hide Sane, Grown, Subscribed, Counted, Registered, Distinctly, Made, UpTo;
    informers := map[];
    ghost var before := f.Contents();
    NothingSubscribed(before, spec, reachable);
    for i := 0 to |spec.children|
      invariant UpTo(before, f.Contents(), spec, reachable, informers, i)
    {
      var c := spec.children[i];
      SubscribeOneMore(before, f.Contents(), spec, reachable, informers, i);
      var informer := f.GetOrCreate(c, c in reachable);
      if informer.None? {
        SubscribedUpTo(before, f.Contents(), spec, reachable, informers, i);
        return false, informers;
      }
      informers := informers[c := informer.value];
    }
    SubscribedUpTo(before, f.Contents(), spec, reachable, informers, |spec.children|);
    return true, informers;
  }

  /** The first `i` child subscriptions are made, and registered. */
  ghost predicate UpTo(before: Pool, p: Pool, spec: Spec, reachable: set<string>, informers: map<string, nat>, i: nat) {
    && i <= |spec.children| && Made(before, spec, reachable, 0) == Made(before, spec, reachable, i)
    && Sane(p) && Grown(before, p) && Registered(p, informers)
    && informers.Keys == Distinctly(spec.children[..i])
    && p.shared.Keys == before.shared.Keys + informers.Keys
    && Counted(before, p, multiset(spec.children[..i]), multiset{})
  }

  lemma NothingSubscribed(p: Pool, spec: Spec, reachable: set<string>)
    requires Sane(p)
    ensures UpTo(p, p, spec, reachable, map[], 0)
  {
    NothingYet(p);
    hide Sane, Grown, Counted, Registered, Distinctly, Made;
    assert spec.children[..0] == [];
  }

  lemma SubscribedUpTo(before: Pool, p: Pool, spec: Spec, reachable: set<string>, informers: map<string, nat>, i: nat)
    requires UpTo(before, p, spec, reachable, informers, i)
    requires i == |spec.children| || Made(before, spec, reachable, i) == i
    ensures var n := Made(before, spec, reachable, 0);
      && n == i && Sane(p) && Grown(before, p) && Registered(p, informers)
      && informers.Keys == Distinctly(spec.children[..n])
      && Counted(before, p, multiset(spec.children[..n]), multiset{})
  {
    MadeStep(before, spec, reachable, i);
    hide Sane, Grown, Counted, Registered, Distinctly, Made;
  }

  /** Whether one more subscription can be made, as the informers that run by then tell. */
  lemma MadeNext(before: Pool, p: Pool, spec: Spec, reachable: set<string>, i: nat)
    requires i < |spec.children| && i <= Made(before, spec, reachable, 0) && spec.parent in before.shared
    requires p.shared.Keys == before.shared.Keys + Distinctly(spec.children[..i])
    ensures var c := spec.children[i];
      Made(before, spec, reachable, i) ==
        if c in p.shared || c in reachable then Made(before, spec, reachable, i + 1) else i
  {
    MadeBefore(before, spec, reachable, i);
    MadeStep(before, spec, reachable, i);
    hide Made, Distinctly;
  }

  lemma UpToParts(before: Pool, p: Pool, spec: Spec, reachable: set<string>, informers: map<string, nat>, i: nat)
    requires i <= |spec.children|
    ensures UpTo(before, p, spec, reachable, informers, i) <==>
      && Made(before, spec, reachable, 0) == Made(before, spec, reachable, i)
      && Sane(p) && Grown(before, p) && Registered(p, informers)
      && informers.Keys == Distinctly(spec.children[..i])
      && p.shared.Keys == before.shared.Keys + informers.Keys
      && Counted(before, p, multiset(spec.children[..i]), multiset{})
  {
  }

  lemma SubscribeOneMore(before: Pool, p: Pool, spec: Spec, reachable: set<string>, informers: map<string, nat>, i: nat)
    requires i < |spec.children| && UpTo(before, p, spec, reachable, informers, i) && spec.parent in before.shared
    ensures var c := spec.children[i];
      var (r, id) := Subscribed(p, c, c in reachable);
      && (id.Some? ==> UpTo(before, r, spec, reachable, informers[c := id.value], i + 1))
      && (id.None? ==> r == p && Made(before, spec, reachable, i) == i)
  {
    hide *;
    var c := spec.children[i];
    var (r, id) := Subscribed(p, c, c in reachable);
    UpToParts(before, p, spec, reachable, informers, i);
    OneMore(spec.children, i);
    MadeNext(before, p, spec, reachable, i);
    SubscribeGrows(before, p, multiset(spec.children[..i]), c, c in reachable);
    SubscribeRegisters(p, informers, c, c in reachable);
    if id.Some? {
      var after := informers[c := id.value];
      assert after.Keys == informers.Keys + {c};
      UpToParts(before, r, spec, reachable, after, i + 1);
    }
  }

  lemma MadeStep(p: Pool, spec: Spec, reachable: set<string>, i: nat)
    requires i <= |spec.children|
    ensures Made(p, spec, reachable, i) ==
      if i < |spec.children| && (spec.children[i] == spec.parent || Subscribable(p, spec.children[i], reachable)) then
        Made(p, spec, reachable, i + 1)
      else i
  {
  }

  lemma MadeBefore(p: Pool, spec: Spec, reachable: set<string>, i: nat)
    requires i <= Made(p, spec, reachable, 0)
    ensures forall c | c in Distinctly(spec.children[..i]) :: c == spec.parent || Subscribable(p, c, reachable)
  {
  }

  lemma OneMore(keys: seq<string>, i: nat)
    requires i < |keys|
    ensures multiset(keys[..i + 1]) == multiset(keys[..i]) + multiset{keys[i]}
    ensures Distinctly(keys[..i + 1]) == Distinctly(keys[..i]) + {keys[i]}
  {
    assert keys[..i + 1] == keys[..i] + [keys[i]];
  }

  lemma NothingYet(p: Pool)
    ensures Grown(p, p) && Counted(p, p, multiset{}, multiset{}) && Registered(p, map[]) && Distinctly([]) == {}
  {
  }

  /** Closes the informers of a registrar, in any order. */
  method CloseChildren(f: SharedInformerFactory, informers: map<string, nat>)
    requires Sane(f.Contents()) && Registered(f.Contents(), informers)
    modifies f
    ensures Sane(f.Contents()) && Shrunk(old(f.Contents()), f.Contents())
    ensures Counted(old(f.Contents()), f.Contents(), multiset{}, multiset(informers.Keys))
  {
    var todo := informers.Keys;
    ghost var before := f.Contents();
    while todo != {}
      invariant todo <= informers.Keys
      invariant Sane(f.Contents()) && Shrunk(before, f.Contents())
      invariant forall key | key in todo :: key in f.shared && f.shared[key] == informers[key]
      invariant Counted(before, f.Contents(), multiset{}, multiset(informers.Keys - todo))
      decreases todo
    {
      var key :| key in todo;
      CloseOne(before, f.Contents(), informers.Keys, todo, key);
      var panicked := f.Close(informers[key]);
      todo := todo - {key};
    }
    assert informers.Keys - {} == informers.Keys;
  }

  lemma CloseOne(before: Pool, p: Pool, all: set<string>, todo: set<string>, key: string)
    requires Sane(p) && Shrunk(before, p) && Counted(before, p, multiset{}, multiset(all - todo))
    requires key in todo && todo <= all && key in p.shared
    ensures Closed(p, p.shared[key]).Some?
    ensures var r := Closed(p, p.shared[key]).value;
      && Sane(r) && Shrunk(before, r)
      && (forall k | k in p.shared && k != key :: k in r.shared && r.shared[k] == p.shared[k])
      && Counted(before, r, multiset{}, multiset(all - (todo - {key})))
  {
    ClosedPool(p, p.shared[key]);
    assert multiset(all - (todo - {key})) == multiset(all - todo) + multiset{key};
  }

  /** Fails without subscribing to anything if the parent's resource is not known, even if its informer runs, or if an
      update strategy is given for an unknown resource. Fails too if some subscription cannot be made, and then closes
      those in the registrar and the parent's: that leaves everything as it was exactly if no child resource was
      subscribed to twice. */
  method NewParentController(f: SharedInformerFactory, spec: Spec, reachable: set<string>, strategiesKnown: bool)
    returns (r: Option<ParentController>)
    requires Sane(f.Contents())
    modifies f
    ensures Sane(f.Contents())
    ensures var before, after := old(f.Contents()), f.Contents();
      if spec.parent !in reachable || !strategiesKnown then r.None? && after == before
      else
        var n := Made(before, spec, reachable, 0);
        var made := spec.children[..n];
        && (r.Some? <==> n == |spec.children|)
        && (r.None? ==> (Restored(before, after) <==> Distinct(made)))
        && (r.Some? ==> (
          && Counted(before, after, multiset(made) + multiset{spec.parent}, multiset{}) && Grown(before, after)
          && r.value.Subscribes(after) && r.value.parent == spec.parent
          && r.value.childInformers.Keys == Distinctly(made)))
  {
    if spec.parent !in reachable || !strategiesKnown {
      return None;
    }
    hide Sane, Grown, Shrunk, Counted, Registered, Distinctly, Subscribed, Restored, Distinct;
    ghost var before := f.Contents();
    NothingYet(before);
    SubscribeGrows(before, before, multiset{}, spec.parent, spec.parent in reachable);
    SubscribeRegisters(before, map[], spec.parent, spec.parent in reachable);
    var parentInformer := f.GetOrCreate(spec.parent, spec.parent in reachable);
    if parentInformer.None? {
      return None;
    }
    var id := parentInformer.value;
    ghost var first := f.Contents();
    MadeTheSame(before, first, spec, reachable, 0);
    var ok, childInformers := SubscribeChildren(f, spec, reachable);
    ghost var made := spec.children[..Made(before, spec, reachable, 0)];
    Together(before, first, f.Contents(), multiset{spec.parent}, multiset(made), multiset{}, multiset{});
    ghost var all := multiset(made) + multiset{spec.parent};
    ghost var none: multiset<string> := multiset{};
    assert none + none == none;
    assert multiset{spec.parent} + multiset(made) == all;
    StillSubscribes(before, first, f.Contents(), spec.parent, id, made);
    if !ok {
      ghost var second := f.Contents();
      CloseChildren(f, childInformers);
      ClosesParent(second, f.Contents(), childInformers, spec.parent, id);
      var panicked := f.Close(id);
      ghost var closed := multiset(childInformers.Keys) + multiset{spec.parent};
      Together(before, second, f.Contents(), all, multiset{}, multiset{}, closed);
      assert all + multiset{} == all && multiset{} + closed == closed;
      RestoredIfDistinct(before, second, f.Contents(), spec.parent, made);
      return None;
    }
    var pc := new ParentController(spec.parent, id, childInformers);
    return Some(pc);
  }

  lemma Together(p: Pool, q: Pool, r: Pool, made: multiset<string>, more: multiset<string>, closed: multiset<string>,
      gone: multiset<string>)
    requires Counted(p, q, made, closed) && Counted(q, r, more, gone)
    ensures Counted(p, r, made + more, closed + gone)
    ensures Grown(p, q) && Grown(q, r) ==> Grown(p, r)
  {
  }

  /** If the parent's resource is a child resource too, both subscriptions are counted. */
  lemma StillSubscribes(before: Pool, first: Pool, second: Pool, parent: string, id: nat, made: seq<string>)
    requires Sane(before) && Registered(first, map[parent := id]) && Grown(first, second)
    requires Counted(before, second, multiset(made) + multiset{parent}, multiset{})
    ensures Registered(second, map[parent := id])
    ensures parent in Distinctly(made) ==> second.Count(parent) > 1
  {
    assert map[parent := id][parent] == id;
    assert before.Count(parent) >= 0;
  }

  function Distinctly(keys: seq<string>): set<string> {
    set key | key in keys
  }

  // ---- nothing leaks

  ghost predicate Restored(before: Pool, after: Pool) {
    after.refCount == before.refCount && after.shared == before.shared
  }

  lemma {:induction false} Occurrences(keys: seq<string>, key: string)
    ensures multiset(keys)[key] >= multiset(Distinctly(keys))[key]
    ensures Distinct(keys) ==> multiset(keys)[key] == multiset(Distinctly(keys))[key]
  {
    if keys == [] {
    } else {
      var n := |keys| - 1;
      assert keys[..n + 1] == keys;
      OneMore(keys, n);
      Occurrences(keys[..n], key);
    }
  }

  /** A resource that occurs twice is subscribed to more often than the registrar can tell. */
  lemma Repeated(keys: seq<string>)
    requires !Distinct(keys)
    ensures exists key :: multiset(keys)[key] > multiset(Distinctly(keys))[key]
  {
    var i, j :| 0 <= i < j < |keys| && keys[i] == keys[j];
    assert keys == keys[..j] + keys[j..];
    assert keys[i] in keys[..j] && keys[j] in keys[j..];
    assert multiset(keys)[keys[i]] > multiset(Distinctly(keys))[keys[i]];
  }

  /** Giving back what the registrar holds restores the pool exactly if no child resource occurs twice: all
      counts are as before, and the informers that ran before are the ones that run after. */
  lemma RestoredIfDistinct(before: Pool, middle: Pool, after: Pool, parent: string, made: seq<string>)
    requires Sane(before) && Sane(after) && Grown(before, middle) && Shrunk(middle, after)
    requires Counted(before, after, multiset(made) + multiset{parent}, multiset(Distinctly(made)) + multiset{parent})
    ensures Restored(before, after) <==> Distinct(made)
  {
    if Distinct(made) {
      forall key ensures after.Count(key) == before.Count(key) {
        Occurrences(made, key);
      }
      SameCounts(before, middle, after);
    } else {
      Repeated(made);
      var key :| multiset(made)[key] > multiset(Distinctly(made))[key];
      assert after.Count(key) > before.Count(key);
    }
    hide Sane, Grown, Shrunk, Distinct, Distinctly;
  }

  /** Pools with the same counts have the same informers, if they agree with one in between. */
  lemma SameCounts(before: Pool, middle: Pool, after: Pool)
    requires Sane(before) && Sane(after) && Grown(before, middle) && Shrunk(middle, after)
    requires forall key :: after.Count(key) == before.Count(key)
    ensures Restored(before, after)
  {
    assert forall key :: key in before.shared <==> before.Count(key) > 0;
    assert forall key :: key in after.shared <==> after.Count(key) > 0;
    assert forall key :: key in before.shared <==> key in after.shared;
    assert before.shared == after.shared && before.refCount == after.refCount;
  }

  /** So does creating a controller and stopping it. */
  lemma StopRestores(before: Pool, running: Pool, after: Pool, parent: string, children: seq<string>)
    requires Sane(before) && Sane(after) && Grown(before, running) && Shrunk(running, after)
    requires Counted(before, running, multiset(children) + multiset{parent}, multiset{})
    requires Counted(running, after, multiset{}, multiset(Distinctly(children)) + multiset{parent})
    ensures Restored(before, after) <==> Distinct(children)
  {
    var made, closed := multiset(children) + multiset{parent}, multiset(Distinctly(children)) + multiset{parent};
    Together(before, running, after, made, multiset{}, multiset{}, closed);
    assert made + multiset{} == made && multiset{} + closed == closed;
    RestoredIfDistinct(before, running, after, parent, children);
  }

  /** A controller's whole life: it restores the pool exactly if its child rules are distinct. */
  method CreateAndStop(f: SharedInformerFactory, spec: Spec, reachable: set<string>, strategiesKnown: bool)
    returns (created: bool)
    requires Sane(f.Contents())
    modifies f
    ensures Sane(f.Contents())
    ensures created ==> (Restored(old(f.Contents()), f.Contents()) <==> Distinct(spec.children))
  {
    hide Grown, Shrunk, Counted, Restored, Distinct, Sane;
    ghost var before := f.Contents();
    var r := NewParentController(f, spec, reachable, strategiesKnown);
    if r.None? {
      return false;
    }
    ghost var running := f.Contents();
    assert spec.children[..|spec.children|] == spec.children;
    r.value.Stop(f);
    StopRestores(before, running, f.Contents(), spec.parent, spec.children);
    return true;
  }
}

/** The finalizer by which a composite controller keeps its parent object until the children are cleaned up. */
module Finalizers {
  import opened Basics

  /** What matters of a parent object here: is it pending deletion, and what holds the deletion up. */
  datatype Parent = Parent(deleting: bool, finalizers: seq<string>)
  {
    /** Nothing holds the deletion up any more, so the API server has removed the object. */
    predicate Gone() {
      deleting && finalizers == []
    }
  }

  const GC_FINALIZERS := {"foregroundDeletion", "orphan"}

  /** Without the first occurrence of a name. */
  function Without(finalizers: seq<string>, name: string): seq<string> {
    if finalizers == [] then []
    else if finalizers[0] == name then finalizers[1..]
    else [finalizers[0]] + Without(finalizers[1..], name)
  }

  /** Removing a finalizer leaves the others as they are; it leaves the name in if it was there twice. */
  lemma {:induction false} WithoutName(finalizers: seq<string>, name: string)
    ensures multiset(Without(finalizers, name)) == multiset(finalizers) - multiset{name}
    ensures name !in Without(finalizers, name) <==> multiset(finalizers)[name] <= 1
  {
    if finalizers == [] {
    } else {
      assert finalizers == [finalizers[0]] + finalizers[1..];
      if finalizers[0] != name {
        WithoutName(finalizers[1..], name);
      } else {
        assert name in multiset(finalizers[1..]) <==> name in finalizers[1..];
      }
    }
  }

  /** It is the first occurrence that goes, and the others keep their order. */
  lemma {:induction false} FirstGoes(finalizers: seq<string>, name: string) returns (i: nat)
    requires name in finalizers
    ensures i < |finalizers| && finalizers[i] == name && name !in finalizers[..i]
    ensures Without(finalizers, name) == finalizers[..i] + finalizers[i + 1..]
  {
    if finalizers[0] == name {
      i := 0;
    } else {
      var rest := FirstGoes(finalizers[1..], name);
      i := rest + 1;
      assert finalizers[..i] == [finalizers[0]] + finalizers[1..][..rest];
      assert finalizers[1..][rest + 1..] == finalizers[i + 1..];
    }
  }

  predicate AtMostOnce(finalizers: seq<string>, name: string) {
    multiset(finalizers)[name] <= 1
  }

  lemma GoneIfOnce(finalizers: seq<string>, name: string)
    ensures name !in Without(finalizers, name) <==> AtMostOnce(finalizers, name)
    ensures name !in finalizers ==> Without(finalizers, name) == finalizers
  {
    WithoutName(finalizers, name);
    WithoutNothing(finalizers, name);
  }

  lemma {:induction false} WithoutNothing(finalizers: seq<string>, name: string)
    ensures name !in finalizers ==> Without(finalizers, name) == finalizers
  {
    if finalizers == [] {
    } else {
      WithoutNothing(finalizers[1..], name);
    }
  }

  lemma WithoutStep(finalizers: seq<string>, name: string, i: nat)
    requires i < |finalizers|
    ensures Without(finalizers[i..], name) ==
      if finalizers[i] == name then finalizers[i + 1..]
      else [finalizers[i]] + Without(finalizers[i + 1..], name)
    ensures finalizers[..i + 1] == finalizers[..i] + [finalizers[i]]
  {
    assert finalizers[i..][0] == finalizers[i] && finalizers[i..][1..] == finalizers[i + 1..];
  }

  class Object {
    var deleting: bool
    var finalizers: seq<string>

    constructor (parent: Parent)
      ensures Contents() == parent
    {
      deleting, finalizers := parent.deleting, parent.finalizers;
    }

    function Contents(): Parent
      reads this
    {
      Parent(deleting, finalizers)
    }

    method HasFinalizer(name: string) returns (has: bool)
      ensures has <==> name in finalizers
    {
      for i := 0 to |finalizers|
        invariant name !in finalizers[..i]
      {
        if finalizers[i] == name {
          return true;
        }
      }
      return false;
    }

    method AddFinalizer(name: string)
      modifies this
      ensures deleting == old(deleting)
      ensures finalizers == if name in old(finalizers) then old(finalizers) else old(finalizers) + [name]
    {
      var has := HasFinalizer(name);
      if !has {
        finalizers := finalizers + [name];
      }
    }

    method RemoveFinalizer(name: string)
      modifies this
      ensures deleting == old(deleting)
      ensures finalizers == Without(old(finalizers), name)
    {
      WithoutNothing([], name);
      hide Without;
      assert finalizers[0..] == finalizers;
      for i := 0 to |finalizers|
        invariant finalizers == old(finalizers) && deleting == old(deleting)
        invariant Without(finalizers, name) == finalizers[..i] + Without(finalizers[i..], name)
      {
        WithoutStep(finalizers, name, i);
        if finalizers[i] == name {
          finalizers := finalizers[..i] + finalizers[i + 1..];
          return;
        }
      }
      assert finalizers[|finalizers|..] == [] && finalizers[..|finalizers|] == finalizers;
    }

    method HasGCFinalizer() returns (has: bool)
      ensures has <==> exists f | f in finalizers :: f in GC_FINALIZERS
    {
      for i := 0 to |finalizers|
        invariant forall f | f in finalizers[..i] :: f !in GC_FINALIZERS
      {
        if finalizers[i] == "foregroundDeletion" || finalizers[i] == "orphan" {
          return true;
        }
      }
      return false;
    }
  }

  // ---- the API server

  /** The object after a request to add the finalizer, or nothing if the request is refused: no finalizer is
      added once the object is pending deletion. */
  function ServerAdds(live: Parent, name: string, up: bool): Option<Parent> {
    if !up || live.Gone() then None
    else if name in live.finalizers then Some(live)
    else if live.deleting then None
    else Some(live.(finalizers := live.finalizers + [name]))
  }

  function ServerRemoves(live: Parent, name: string, up: bool): Option<Parent> {
    if !up || live.Gone() then None else Some(live.(finalizers := Without(live.finalizers, name)))
  }

  /** What any client may make of the object. */
  ghost predicate ServerAllows(live: Parent, next: Parent) {
    || next == live
    || (!live.Gone()
      && (live.deleting ==> next.deleting && forall f | f in next.finalizers :: f in live.finalizers))
  }

  /** The client's read-modify-write of the live object. The update is sent only if it changes something. */
  class Client {
    const live: Object

    constructor (live: Object)
      ensures this.live == live
    {
      this.live := live;
    }

    method AddFinalizer(name: string, up: bool) returns (r: Option<Parent>)
      modifies live
      ensures r == ServerAdds(old(live.Contents()), name, up)
      ensures live.Contents() == if r.Some? then r.value else old(live.Contents())
    {
      if !up || live.Contents().Gone() {
        return None;
      }
      var has := live.HasFinalizer(name);
      if !has && live.deleting {
        return None;
      }
      live.AddFinalizer(name);
      return Some(live.Contents());
    }

    method RemoveFinalizer(name: string, up: bool) returns (r: Option<Parent>)
      modifies live
      ensures r == ServerRemoves(old(live.Contents()), name, up)
      ensures live.Contents() == if r.Some? then r.value else old(live.Contents())
    {
      if !up || live.Contents().Gone() {
        return None;
      }
      live.RemoveFinalizer(name);
      return Some(live.Contents());
    }
  }

  // ---- one sync of the parent

  datatype Finalizer = Finalizer(name: string, enabled: bool)
  {
    method SyncObject(client: Client, cached: Object, up: bool)
      returns (r: Option<Parent>, ghost requests: seq<Request>)
      requires cached != client.live
      modifies client.live
      ensures (requests, r) == Synced(this, cached.Contents(), old(client.live.Contents()), up)
      ensures client.live.Contents() == Now(requests, r, old(client.live.Contents()))
    {
      requests := [];
      var has := cached.HasFinalizer(name);
      if has == enabled {
        return Some(cached.Contents()), requests;
      }
      if enabled {
        if cached.deleting {
          return Some(cached.Contents()), requests;
        }
        r := client.AddFinalizer(name, up);
        requests := [Add];
      } else {
        r := client.RemoveFinalizer(name, up);
        requests := [Remove];
      }
    }

    /** The rest of the sync, once the hooks of all revisions were asked about the parent. The object is read
        back from the removal of the finalizer, and only then it is decided to manage the children. */
    method FinishSync(client: Client, parent: Object, hooks: Option<bool>, up: bool, valid: bool)
      returns (managed: bool)
      requires parent != client.live
      modifies client.live
      ensures var replies := Replies(hooks, old(client.live.Contents()), up, valid);
        && managed == ManagesChildren(this, parent.Contents(), replies)
        && client.live.Contents() == LiveAfter(this, parent.Contents(), replies)
    {
      if hooks.None? {
        return false;
      }
      var current := parent;
      if hooks.value {
        var updated := client.RemoveFinalizer(name, up);
        if updated.None? {
          return false;
        }
        current := new Object(updated.value);
      }
      if !valid {
        return false;
      }
      var should := ShouldFinalize(current);
      return !current.deleting || should;
    }

    method ShouldFinalize(parent: Object) returns (should: bool)
      ensures should <==> MayFinalize(this, parent.Contents())
    {
      var collected := parent.HasGCFinalizer();
      if collected {
        return false;
      }
      var has := parent.HasFinalizer(name);
      return has && enabled;
    }
  }

  datatype Request = Add | Remove

  /** The requests of the first step of a sync, and the object the sync goes on with. */
  function Synced(f: Finalizer, cached: Parent, live: Parent, up: bool): (seq<Request>, Option<Parent>) {
    if (f.name in cached.finalizers) == f.enabled then ([], Some(cached))
    else if !f.enabled then ([Remove], ServerRemoves(live, f.name, up))
    else if cached.deleting then ([], Some(cached))
    else ([Add], ServerAdds(live, f.name, up))
  }

  /** What the first step makes of the live object. */
  function Now(requests: seq<Request>, r: Option<Parent>, live: Parent): Parent {
    if requests != [] && r.Some? then r.value else live
  }

  predicate MayFinalize(f: Finalizer, parent: Parent) {
    f.enabled && f.name in parent.finalizers && forall g | g in parent.finalizers :: g !in GC_FINALIZERS
  }

  /** How a sync goes on after the hooks of all revisions were asked about the parent: what they answered, if
      anything, what the live object is by then, does a request to remove the finalizer get through, and do the
      desired children match the parent's selector. */
  datatype Replies = Replies(hooks: Option<bool>, live: Parent, up: bool, valid: bool)

  /** The object the rest of the sync goes on with. Nothing if the hooks or a request fail. */
  function Finished(f: Finalizer, parent: Parent, replies: Replies): Option<Parent> {
    if replies.hooks.None? then None
    else if !replies.hooks.value then Some(parent)
    else ServerRemoves(replies.live, f.name, replies.up)
  }

  predicate ManagesChildren(f: Finalizer, parent: Parent, replies: Replies) {
    var finished := Finished(f, parent, replies);
    finished.Some? && replies.valid && (!finished.value.deleting || MayFinalize(f, finished.value))
  }

  function LiveAfter(f: Finalizer, parent: Parent, replies: Replies): Parent {
    var finished := Finished(f, parent, replies);
    if replies.hooks == Some(true) && finished.Some? then finished.value else replies.live
  }

  /** A whole sync: all its requests, the live object it leaves, the object the hooks were asked about, and
      whether the children were managed. */
  datatype Sync = Sync(requests: seq<Request>, live: Parent, asked: Option<Parent>, managed: bool)

  function SyncParent(f: Finalizer, cached: Parent, live: Parent, up: bool, replies: Replies): Sync {
    var (requests, synced) := Synced(f, cached, live, up);
    match synced
    case None => Sync(requests, live, None, false)
    case Some(parent) =>
      Sync(if replies.hooks == Some(true) then requests + [Remove] else requests,
        LiveAfter(f, parent, replies), synced, ManagesChildren(f, parent, replies))
  }

  /** What a sync leaves of the live object. */
  lemma SyncLeaves(f: Finalizer, cached: Parent, live: Parent, up: bool, replies: Replies)
    ensures var sync, now := SyncParent(f, cached, live, up, replies), replies.live;
      sync.live ==
        if sync.asked.None? then live
        else if replies.hooks == Some(true) && replies.up && !now.Gone() then
          now.(finalizers := Without(now.finalizers, f.name))
        else now
  {
  }

  /** A sync that manages the children without an answer that they are finalized goes on with an object that is alive
      or has the finalizer; one that is alive has it too, unless finalizing is disabled. */
  lemma ManagedHasFinalizer(f: Finalizer, cached: Parent, live: Parent, up: bool, replies: Replies)
    requires f.enabled && SyncParent(f, cached, live, up, replies).managed
    ensures replies.hooks == Some(true) ==> replies.up && !replies.live.Gone()
    ensures var (requests, synced) := Synced(f, cached, live, up);
      && synced.Some?
      && (replies.hooks != Some(true) ==>
        f.name in cached.finalizers || f.name in Now(requests, synced, live).finalizers)
  {
  }

  /** Adding the finalizer is asked for only if finalizing is enabled and the sync saw the object without it and
      not pending deletion; removing it only if finalizing is disabled or the hooks answered so. */
  lemma RequestsAreJustified(f: Finalizer, cached: Parent, live: Parent, up: bool, replies: Replies)
    ensures var sync := SyncParent(f, cached, live, up, replies);
      && (Add in sync.requests <==> f.enabled && f.name !in cached.finalizers && !cached.deleting)
      && (Remove in sync.requests <==>
        || (!f.enabled && f.name in cached.finalizers)
        || (sync.asked.Some? && replies.hooks == Some(true)))
  {
  }

  lemma WithoutIsSome(finalizers: seq<string>, name: string)
    ensures forall g | g in Without(finalizers, name) :: g in finalizers
  {
  }

  /** Each step of a sync changes the object only as the API server allows. */
  lemma SyncIsAllowed(f: Finalizer, cached: Parent, live: Parent, up: bool, replies: Replies)
    ensures var (requests, synced) := Synced(f, cached, live, up);
      && ServerAllows(live, Now(requests, synced, live))
      && ServerAllows(if synced.Some? then replies.live else live, SyncParent(f, cached, live, up, replies).live)
  {
    WithoutIsSome(live.finalizers, f.name);
    WithoutIsSome(replies.live.finalizers, f.name);
  }

  // ---- what a sync does, told by itself

  /** Adding the finalizer leaves those of others as they are, in their order, and adds it once if it is missing. */
  lemma AddKeepsOthers(live: Parent, name: string, up: bool)
    ensures var r := ServerAdds(live, name, up);
      r.Some? ==>
        && r.value.deleting == live.deleting && name in r.value.finalizers
        && live.finalizers <= r.value.finalizers
        && multiset(r.value.finalizers) == multiset(live.finalizers)
          + (if name in live.finalizers then multiset{} else multiset{name})
    ensures ServerAdds(live, name, up).None? <==> !up || live.Gone() || (name !in live.finalizers && live.deleting)
  {
  }

  /** With finalizing enabled, a sync that sees a living object without the finalizer puts it on the live one, if that
      gets through, and goes on with that. */
  lemma EnabledPutsOn(f: Finalizer, cached: Parent, live: Parent, up: bool)
    requires f.enabled && f.name !in cached.finalizers && !cached.deleting
    ensures var (requests, r) := Synced(f, cached, live, up);
      && (r.Some? <==> up && !live.Gone() && (f.name in live.finalizers || !live.deleting))
      && (r.Some? ==> (
        && f.name in r.value.finalizers && live.finalizers <= r.value.finalizers
        && r.value.deleting == live.deleting && Now(requests, r, live) == r.value))
  {
  }

  /** In all other cases it makes no request and goes on with the object it saw. */
  lemma OtherwiseGoesOn(f: Finalizer, cached: Parent, live: Parent, up: bool)
    requires f.enabled ==> f.name in cached.finalizers || cached.deleting
    requires !f.enabled ==> f.name !in cached.finalizers
    ensures Synced(f, cached, live, up) == ([], Some(cached)) && Now([], Some(cached), live) == live
  {
  }

  /** With finalizing disabled, a sync that sees the finalizer takes it off the live object, if that gets through, and
      goes on without it. */
  lemma DisabledTakesOff(f: Finalizer, cached: Parent, live: Parent, up: bool)
    requires !f.enabled && f.name in cached.finalizers && up && !live.Gone() && AtMostOnce(live.finalizers, f.name)
    ensures var (requests, r) := Synced(f, cached, live, up);
      && r.Some? && f.name !in r.value.finalizers && Now(requests, r, live) == r.value
      && r.value.deleting == live.deleting
      && forall g | g != f.name :: multiset(r.value.finalizers)[g] == multiset(live.finalizers)[g]
  {
    WithoutName(live.finalizers, f.name);
  }

  /** The object whose deletion and finalizers decide whether the children are managed: the one the first step ended
      with, or what the removal of the finalizer returned. */
  ghost predicate Decides(f: Finalizer, synced: Option<Parent>, replies: Replies, parent: Parent) {
    && synced.Some? && replies.hooks.Some?
    && (!replies.hooks.value ==> parent == synced.value)
    && (replies.hooks.value ==> (
      && replies.up && !replies.live.Gone() && parent.deleting == replies.live.deleting
      && multiset(parent.finalizers) == multiset(replies.live.finalizers) - multiset{f.name}))
  }

  /** The object is alive, or it has the finalizer, finalizing is enabled and the garbage collector is not at work. */
  ghost predicate AliveOrFinalizing(f: Finalizer, parent: Parent) {
    || !parent.deleting
    || (f.enabled && f.name in parent.finalizers
      && "foregroundDeletion" !in parent.finalizers && "orphan" !in parent.finalizers)
  }

  /** The children are managed exactly if all calls get through, the desired children are valid, and the object that
      decides is alive or being finalized. */
  lemma ManagedExactlyIf(f: Finalizer, cached: Parent, live: Parent, up: bool, replies: Replies)
    ensures SyncParent(f, cached, live, up, replies).managed <==>
      replies.valid
      && exists parent :: Decides(f, Synced(f, cached, live, up).1, replies, parent) && AliveOrFinalizing(f, parent)
  {
    var synced := Synced(f, cached, live, up).1;
    if synced.Some? {
      WithoutName(replies.live.finalizers, f.name);
      var finished := Finished(f, synced.value, replies);
      if finished.Some? {
        assert Decides(f, synced, replies, finished.value);
        forall parent | Decides(f, synced, replies, parent)
          ensures parent.deleting == finished.value.deleting
          ensures forall g :: g in parent.finalizers <==> g in finished.value.finalizers
        {
          SameMembers(parent.finalizers, finished.value.finalizers);
        }
      }
    }
  }

  lemma SameMembers(a: seq<string>, b: seq<string>)
    requires multiset(a) == multiset(b)
    ensures forall g :: g in a <==> g in b
  {
    assert forall g :: g in a <==> g in multiset(a);
    assert forall g :: g in b <==> g in multiset(b);
  }

  /** So a parent that is being finalized has its children managed until the hooks answer that they finished. */
  lemma FinalizingManages(f: Finalizer, cached: Parent, live: Parent, up: bool, replies: Replies)
    requires f.enabled && f.name in cached.finalizers
    requires "foregroundDeletion" !in cached.finalizers && "orphan" !in cached.finalizers
    requires replies.hooks == Some(false) && replies.valid
    ensures SyncParent(f, cached, live, up, replies).managed
  {
  }
}

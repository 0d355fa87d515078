/** Shared informers: one for each resource, started for its first subscriber and stopped when the last one
    leaves. The mutex of the factory makes every subscribe and close one step. */
module Informers {
  import opened Basics

  /** Informers are numbered as they are created. `keys` tells what each one watches, `stopped` holds those
      whose stop channel is closed. */
  datatype Pool = Pool(refCount: map<string, int>, shared: map<string, nat>, keys: seq<string>, stopped: set<nat>)
  {
    /** A count that is missing reads as zero. */
    function Count(key: string): int {
      if key in refCount then refCount[key] else 0
    }
  }

  function Subscribed(p: Pool, key: string, reachable: bool): (r: (Pool, Option<nat>)) {
    if key in p.shared then (p.(refCount := p.refCount[key := p.Count(key) + 1]), Some(p.shared[key]))
    else if !reachable then (p, None)
    else
      var id := |p.keys|;
      (Pool(p.refCount[key := 1], p.shared[key := id], p.keys + [key], p.stopped), Some(id))
  }

  /** Nothing if the stop channel is closed a second time, which panics. */
  function Closed(p: Pool, id: nat): (r: Option<Pool>)
    requires id < |p.keys|
  {
    var key := p.keys[id];
    var count := p.Count(key) - 1;
    if count > 0 then Some(p.(refCount := p.refCount[key := count]))
    else if id in p.stopped then None
    else Some(Pool(p.refCount - {key}, p.shared - {key}, p.keys, p.stopped + {id}))
  }

  class SharedInformerFactory {
    var refCount: map<string, int>
    var shared: map<string, nat>
    var keys: seq<string>
    var stopped: set<nat>

    function Contents(): Pool
      reads this
    {
      Pool(refCount, shared, keys, stopped)
    }

    constructor ()
      ensures Contents() == Pool(map[], map[], [], {})
    {
      refCount, shared, keys, stopped := map[], map[], [], {};
    }

    method GetOrCreate(key: string, reachable: bool) returns (r: Option<nat>)
      modifies this
      ensures (Contents(), r) == Subscribed(old(Contents()), key, reachable)
    {
      if key in shared {
        var count := (if key in refCount then refCount[key] else 0) + 1;
        refCount := refCount[key := count];
        return Some(shared[key]);
      }
      if !reachable {
        return None;
      }
      var id := |keys|;
      keys := keys + [key];
      shared := shared[key := id];
      refCount := refCount[key := 1];
      return Some(id);
    }

    /** What an informer's subscribers call when they no longer need it. */
    method Close(id: nat) returns (panicked: bool)
      requires id < |keys|
      modifies this
      ensures panicked <==> Closed(old(Contents()), id).None?
      ensures Contents() == if panicked then old(Contents()) else Closed(old(Contents()), id).value
    {
      var key := keys[id];
      var count := (if key in refCount then refCount[key] else 0) - 1;
      if count > 0 {
        refCount := refCount[key := count];
        return false;
      }
      if id in stopped {
        return true;
      }
      stopped := stopped + {id};
      refCount := refCount - {key};
      shared := shared - {key};
      return false;
    }
  }

  // ---- every interleaving of the subscribers' steps

  /** The pool together with all subscriptions ever handed out, in order, and which of them were closed. */
  datatype Session = Session(pool: Pool, subs: seq<nat>, closed: set<nat>)

  datatype Op = Subscribe(key: string, reachable: bool) | Close(sub: nat)

  const START := Session(Pool(map[], map[], [], {}), [], {})

  /** Subscribers close only what they were handed, and only once. */
  predicate Allowed(s: Session, op: Op) {
    op.Close? ==> op.sub < |s.subs| && op.sub !in s.closed && s.subs[op.sub] < |s.pool.keys|
  }

  /** Nothing if the step panics. */
  function Step(s: Session, op: Op): (r: Option<Session>)
    requires Allowed(s, op)
  {
    match op
    case Subscribe(key, reachable) =>
      var (pool, id) := Subscribed(s.pool, key, reachable);
      Some(Session(pool, if id.Some? then s.subs + [id.value] else s.subs, s.closed))
    case Close(sub) =>
      match Closed(s.pool, s.subs[sub])
      case Some(pool) => Some(Session(pool, s.subs, s.closed + {sub}))
      case None => None
  }

  ghost predicate Reachable(s: Session, ops: seq<Op>, end: Session)
    decreases |ops|
  {
    if ops == [] then s == end
    else Allowed(s, ops[0]) && Step(s, ops[0]).Some? && Reachable(Step(s, ops[0]).value, ops[1..], end)
  }

  /** The open subscriptions to a resource. */
  ghost function Open(s: Session, key: string): set<nat> {
    set i | 0 <= i < |s.subs| && i !in s.closed && s.subs[i] < |s.pool.keys| && s.pool.keys[s.subs[i]] == key
  }

  /** Whether an informer is the one that new subscribers of its resource get. */
  ghost predicate Current(p: Pool, id: nat)
    requires id < |p.keys|
  {
    p.keys[id] in p.shared && p.shared[p.keys[id]] == id
  }

  /** Shared informers have subscribers, and all others are stopped. */
  ghost predicate Sane(p: Pool) {
    && p.refCount.Keys == p.shared.Keys
    && (forall key | key in p.shared :: p.refCount[key] > 0 && p.shared[key] < |p.keys| && p.keys[p.shared[key]] == key)
    && forall id: nat :: id in p.stopped <==> id < |p.keys| && !Current(p, id)
  }

  /** Counts are those of the open subscriptions, and these are all to the current informer. */
  ghost predicate Sound(s: Session) {
    && Sane(s.pool)
    && (forall i | i in s.closed :: i < |s.subs|)
    && (forall i | 0 <= i < |s.subs| :: s.subs[i] < |s.pool.keys|)
    && (forall i | 0 <= i < |s.subs| && i !in s.closed :: Current(s.pool, s.subs[i]))
    && forall key :: s.pool.Count(key) == |Open(s, key)|
  }

  lemma SubscribedPool(p: Pool, key: string, reachable: bool)
    requires Sane(p)
    ensures var (r, id) := Subscribed(p, key, reachable);
      && Sane(r) && p.keys <= r.keys
      && (id.None? <==> key !in p.shared && !reachable)
      && (id.None? ==> r == p)
      && (id.Some? ==> id.value < |r.keys| && r.keys[id.value] == key && Current(r, id.value))
      && (forall k :: r.Count(k) == p.Count(k) + if k == key && id.Some? then 1 else 0)
      && forall i: nat | i < |p.keys| :: Current(r, i) <==> Current(p, i)
  {
    var r := Subscribed(p, key, reachable).0;
    assert p.keys <= r.keys && forall i: nat | i < |p.keys| :: r.keys[i] == p.keys[i];
    assert forall i: nat | i < |p.keys| :: Current(r, i) <==> Current(p, i);
  }

  lemma ClosedPool(p: Pool, id: nat)
    requires Sane(p) && id < |p.keys| && Current(p, id)
    ensures Closed(p, id).Some?
    ensures var r := Closed(p, id).value;
      && Sane(r) && r.keys == p.keys
      && (forall k :: r.Count(k) == p.Count(k) - if k == p.keys[id] then 1 else 0)
      && forall i: nat | i < |p.keys| :: Current(r, i) <==> Current(p, i) && (i == id ==> p.Count(p.keys[id]) > 1)
  {
  }

  lemma SubscribeKeepsSound(s: Session, key: string, reachable: bool)
    requires Sound(s)
    ensures Sound(Step(s, Subscribe(key, reachable)).value)
  {
    hide Sane, Current, Subscribed;
    var (pool, id) := Subscribed(s.pool, key, reachable);
    SubscribedPool(s.pool, key, reachable);
    forall k {
      OpenAfterSubscribe(s, pool, id, key, k);
    }
  }

  lemma OpenAfterSubscribe(s: Session, pool: Pool, id: Option<nat>, key: string, k: string)
    requires s.pool.keys <= pool.keys && forall i | 0 <= i < |s.subs| :: s.subs[i] < |s.pool.keys|
    requires forall i | i in s.closed :: i < |s.subs|
    requires id.Some? ==> id.value < |pool.keys| && pool.keys[id.value] == key
    ensures |Open(Session(pool, if id.Some? then s.subs + [id.value] else s.subs, s.closed), k)|
      == |Open(s, k)| + if id.Some? && k == key then 1 else 0
  {
    var r := Session(pool, if id.Some? then s.subs + [id.value] else s.subs, s.closed);
    assert Open(r, k) == if id.Some? && k == key then Open(s, k) + {|s.subs|} else Open(s, k);
  }

  /** A subscription that is open can be closed, and the others keep their informer. */
  lemma CloseKeepsSound(s: Session, sub: nat)
    requires Sound(s) && Allowed(s, Close(sub))
    ensures Step(s, Close(sub)).Some? && Sound(Step(s, Close(sub)).value)
  {
    hide Sane, Current, Closed;
    ClosedPool(s.pool, s.subs[sub]);
    var pool := Closed(s.pool, s.subs[sub]).value;
    forall k {
      OpenAfterClose(s, pool, sub, k);
    }
    forall i | 0 <= i < |s.subs| && i !in s.closed + {sub} ensures Current(pool, s.subs[i]) {
      if s.subs[i] == s.subs[sub] {
        TwoOpen(s, i, sub);
      }
    }
  }

  lemma OpenAfterClose(s: Session, pool: Pool, sub: nat, k: string)
    requires sub < |s.subs| && sub !in s.closed && pool.keys == s.pool.keys && s.subs[sub] < |pool.keys|
    ensures |Open(Session(pool, s.subs, s.closed + {sub}), k)|
      == |Open(s, k)| - if k == s.pool.keys[s.subs[sub]] then 1 else 0
  {
    var r := Session(pool, s.subs, s.closed + {sub});
    if k == s.pool.keys[s.subs[sub]] {
      assert sub in Open(s, k) && Open(r, k) == Open(s, k) - {sub};
    } else {
      assert Open(r, k) == Open(s, k);
    }
  }

  lemma TwoOpen(s: Session, i: nat, j: nat)
    requires i < |s.subs| && j < |s.subs| && i != j && i !in s.closed && j !in s.closed
    requires s.subs[i] == s.subs[j] < |s.pool.keys|
    ensures |Open(s, s.pool.keys[s.subs[j]])| > 1
  {
    SmallerSet({i, j}, Open(s, s.pool.keys[s.subs[j]]));
  }

  /** Over every run: no step panics, the counts are those of the open subscriptions, every open subscription
      is to the current informer, and an informer is stopped, once, exactly when nobody subscribes to it. */
  lemma {:induction false} RunsAreSound(s: Session, ops: seq<Op>, end: Session)
    requires Sound(s) && Reachable(s, ops, end)
    ensures Sound(end)
    ensures forall op | Allowed(end, op) :: Step(end, op).Some?
    decreases |ops|
  {
    if ops != [] {
      StepKeepsSound(s, ops[0]);
      RunsAreSound(Step(s, ops[0]).value, ops[1..], end);
    } else {
      forall op | Allowed(end, op) ensures Step(end, op).Some? {
        StepKeepsSound(end, op);
      }
    }
  }

  lemma StartIsSound()
    ensures Sound(START)
  {
    assert forall key :: Open(START, key) == {};
  }

  lemma StepKeepsSound(s: Session, op: Op)
    requires Sound(s) && Allowed(s, op)
    ensures Step(s, op).Some? && Sound(Step(s, op).value)
  {
    match op
    case Subscribe(key, reachable) => SubscribeKeepsSound(s, key, reachable);
    case Close(sub) => CloseKeepsSound(s, sub);
  }

  /** An informer is stopped exactly when it has no open subscription. */
  lemma StoppedWhenUnused(s: Session, id: nat)
    requires Sound(s) && id < |s.pool.keys|
    ensures id in s.pool.stopped <==> forall i | 0 <= i < |s.subs| && s.subs[i] == id :: i in s.closed
  {
    var key := s.pool.keys[id];
    if id !in s.pool.stopped {
      assert |Open(s, key)| == s.pool.Count(key) > 0;
      var i :| i in Open(s, key);
      assert s.subs[i] == id;
    }
  }

  /** Closing a subscription keeps the counts right exactly if it is still open: a second close panics or
      takes a reference away from somebody else. */
  lemma SecondCloseBreaks(s: Session, sub: nat)
    requires Sound(s) && sub < |s.subs|
    ensures var r := Closed(s.pool, s.subs[sub]);
      (r.Some? && Sound(Session(r.value, s.subs, s.closed + {sub}))) <==> sub !in s.closed
  {
    if sub !in s.closed {
      CloseKeepsSound(s, sub);
    } else {
      var key := s.pool.keys[s.subs[sub]];
      var r := Closed(s.pool, s.subs[sub]);
      assert r.Some? ==> r.value.Count(key) != s.pool.Count(key);
      assert s.closed + {sub} == s.closed;
      assert r.Some? && r.value.keys == s.pool.keys ==> Open(Session(r.value, s.subs, s.closed), key) == Open(s, key);
    }
  }
}

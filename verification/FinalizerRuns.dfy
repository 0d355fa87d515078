/** The finalizer over whole runs: syncs that read an object the cache may have fallen behind with, and anybody
    else who changes the object in between. */
module FinalizerRuns {
  import opened Basics
  import opened Finalizers

  /** All versions the object ever had, and the newest one that a sync read from the cache. */
  datatype History = History(versions: seq<Parent>, seen: nat)

  datatype Event =
    | Other(next: Parent)
    | SyncEvent(cached: nat, up: bool, replies: Replies)

  function Live(h: History): Parent
    requires h.versions != []
  {
    h.versions[|h.versions| - 1]
  }

  /** Others change the object, also between the two steps of a sync, as the API server allows. The cache does
      not go back. */
  ghost predicate May(f: Finalizer, h: History, e: Event) {
    h.versions != [] &&
    match e
    case Other(next) => ServerAllows(Live(h), next)
    case SyncEvent(cached, up, replies) =>
      && h.seen <= cached < |h.versions|
      && var (requests, synced) := Synced(f, h.versions[cached], Live(h), up);
        ServerAllows(Now(requests, synced, Live(h)), replies.live)
  }

  function SyncOf(f: Finalizer, h: History, e: Event): Sync
    requires h.versions != [] && e.SyncEvent? && e.cached < |h.versions|
  {
    SyncParent(f, h.versions[e.cached], Live(h), e.up, e.replies)
  }

  function Next(f: Finalizer, h: History, e: Event): (r: History)
    requires h.versions != [] && (e.SyncEvent? ==> e.cached < |h.versions|)
    ensures r.versions != []
  {
    match e
    case Other(next) => History(h.versions + [next], h.seen)
    case SyncEvent(cached, up, replies) =>
      var (requests, synced) := Synced(f, h.versions[cached], Live(h), up);
      var now := Now(requests, synced, Live(h));
      var between := if synced.Some? then [now, replies.live] else [];
      History(h.versions + between + [SyncOf(f, h, e).live], cached)
  }

  ghost predicate IsRun(f: Finalizer, h: History, events: seq<Event>)
    decreases |events|
  {
    events != [] ==> May(f, h, events[0]) && IsRun(f, Next(f, h, events[0]), events[1..])
  }

  ghost function After(f: Finalizer, h: History, events: seq<Event>): (r: History)
    requires h.versions != [] && IsRun(f, h, events)
    ensures r.versions != []
    decreases |events|
  {
    if events == [] then h else After(f, Next(f, h, events[0]), events[1..])
  }

  /** No version follows another as the API server would not allow. */
  ghost predicate Lawful(h: History) {
    && h.versions != [] && h.seen < |h.versions|
    && forall i, j | 0 <= i <= j < |h.versions| :: ServerAllows(h.versions[i], h.versions[j])
  }

  lemma ServerAllowsTwice(a: Parent, b: Parent, c: Parent)
    requires ServerAllows(a, b) && ServerAllows(b, c)
    ensures ServerAllows(a, c)
  {
  }

  lemma LawfulMore(h: History, next: Parent, seen: nat)
    requires Lawful(h) && ServerAllows(Live(h), next) && seen < |h.versions|
    ensures Lawful(History(h.versions + [next], seen))
  {
    var r := History(h.versions + [next], seen);
    forall i, j | 0 <= i <= j < |r.versions| ensures ServerAllows(r.versions[i], r.versions[j]) {
      if i < j == |h.versions| {
        ServerAllowsTwice(h.versions[i], Live(h), next);
      }
    }
  }

  lemma NextIsLawful(f: Finalizer, h: History, e: Event)
    requires Lawful(h) && May(f, h, e)
    ensures Lawful(Next(f, h, e))
    ensures h.versions <= Next(f, h, e).versions && h.seen <= Next(f, h, e).seen
  {
    match e
    case Other(next) => LawfulMore(h, next, h.seen);
    case SyncEvent(cached, up, replies) =>
      var (requests, synced) := Synced(f, h.versions[cached], Live(h), up);
      SyncIsAllowed(f, h.versions[cached], Live(h), up, replies);
      var now := Now(requests, synced, Live(h));
      if synced.Some? {
        var first := History(h.versions + [now], cached);
        LawfulMore(h, now, cached);
        LawfulMore(first, replies.live, cached);
        var second := History(first.versions + [replies.live], cached);
        LawfulMore(second, SyncOf(f, h, e).live, cached);
        assert h.versions + [now, replies.live] == second.versions;
      } else {
        LawfulMore(h, SyncOf(f, h, e).live, cached);
        assert h.versions + [] == h.versions;
      }
  }

  // ---- once the finalizer is gone

  ghost predicate Released(f: Finalizer, parent: Parent) {
    parent.deleting && f.name !in parent.finalizers
  }

  lemma ReleasedIsIgnored(f: Finalizer, h: History, e: Event)
    requires Lawful(h) && May(f, h, e) && e.SyncEvent? && Released(f, h.versions[h.seen])
    ensures !SyncOf(f, h, e).managed && Add !in SyncOf(f, h, e).requests
  {
    var cached := h.versions[e.cached];
    assert ServerAllows(h.versions[h.seen], cached) && ServerAllows(cached, Live(h));
    var (requests, synced) := Synced(f, cached, Live(h), e.up);
    assert requests == [] && synced == Some(cached);
    ServerAllowsTwice(cached, Live(h), e.replies.live);
    WithoutIsSome(e.replies.live.finalizers, f.name);
  }

  /** After a sync saw the parent pending deletion without the finalizer, no sync manages the children or asks for
      the finalizer again, whatever the hooks answer and others do. */
  lemma {:induction false} NeverManagedAgain(f: Finalizer, h: History, events: seq<Event>, k: nat)
    requires Lawful(h) && IsRun(f, h, events) && Released(f, h.versions[h.seen])
    requires k < |events| && events[k].SyncEvent?
    ensures IsRun(f, h, events[..k])
    ensures var now := After(f, h, events[..k]);
      && May(f, now, events[k])
      && !SyncOf(f, now, events[k]).managed && Add !in SyncOf(f, now, events[k]).requests
    decreases k
  {
    if k == 0 {
      ReleasedIsIgnored(f, h, events[0]);
    } else {
      var next := Next(f, h, events[0]);
      NextIsLawful(f, h, events[0]);
      assert ServerAllows(next.versions[h.seen], next.versions[next.seen]);
      NeverManagedAgain(f, next, events[1..], k - 1);
      assert events[..k][1..] == events[1..][..k - 1];
    }
  }

  /** Over every run: each sync that sees the parent with the finalizer, pending deletion or not, manages the children
      while the hooks answer that they have not finished. */
  lemma {:induction false} ManagedWhileFinalizing(f: Finalizer, h: History, events: seq<Event>, k: nat)
    requires f.enabled && h.versions != [] && IsRun(f, h, events) && k < |events| && events[k].SyncEvent?
    ensures IsRun(f, h, events[..k])
    ensures var now := After(f, h, events[..k]);
      && May(f, now, events[k])
      && var seen := now.versions[events[k].cached].finalizers;
        f.name in seen && "foregroundDeletion" !in seen && "orphan" !in seen
        && events[k].replies.hooks == Some(false) && events[k].replies.valid ==>
        SyncOf(f, now, events[k]).managed
    decreases k
  {
    if k == 0 {
      var e := events[0];
      FinalizingOf(f, h, e);
    } else {
      ManagedWhileFinalizing(f, Next(f, h, events[0]), events[1..], k - 1);
      assert events[..k][1..] == events[1..][..k - 1];
    }
  }

  lemma FinalizingOf(f: Finalizer, h: History, e: Event)
    requires f.enabled && May(f, h, e) && e.SyncEvent?
    ensures var seen := h.versions[e.cached].finalizers;
      f.name in seen && "foregroundDeletion" !in seen && "orphan" !in seen
      && e.replies.hooks == Some(false) && e.replies.valid ==>
      SyncOf(f, h, e).managed
  {
    var cached := h.versions[e.cached];
    if f.name in cached.finalizers && "foregroundDeletion" !in cached.finalizers && "orphan" !in cached.finalizers
      && e.replies.hooks == Some(false) && e.replies.valid {
      FinalizingManages(f, cached, Live(h), e.up, e.replies);
    }
  }

  // ---- the chance to clean up

  /** Nobody but the controller takes its finalizer away. */
  ghost predicate Trusted(f: Finalizer, h: History, e: Event)
    requires May(f, h, e)
  {
    match e
    case Other(next) => f.name in Live(h).finalizers ==> f.name in next.finalizers
    case SyncEvent(cached, up, replies) =>
      var (requests, synced) := Synced(f, h.versions[cached], Live(h), up);
      f.name in Now(requests, synced, Live(h)).finalizers ==> f.name in replies.live.finalizers
  }

  /** The hooks answered that they finished finalizing an object pending deletion. */
  predicate Finalized(f: Finalizer, h: History, e: Event)
    requires h.versions != [] && (e.SyncEvent? ==> e.cached < |h.versions|)
  {
    e.SyncEvent? && e.replies.hooks == Some(true) && SyncOf(f, h, e).asked.Some? && SyncOf(f, h, e).asked.value.deleting
  }

  /** The hooks answered so about an object that was alive, and the finalizer was removed. */
  ghost predicate Early(f: Finalizer, h: History, e: Event)
    requires h.versions != [] && (e.SyncEvent? ==> e.cached < |h.versions|)
  {
    && e.SyncEvent? && e.replies.hooks == Some(true)
    && SyncOf(f, h, e).asked.Some? && !SyncOf(f, h, e).asked.value.deleting
    && e.replies.up && AtMostOnce(e.replies.live.finalizers, f.name)
  }

  ghost predicate AllTrusted(f: Finalizer, h: History, events: seq<Event>)
    requires IsRun(f, h, events)
    decreases |events|
  {
    events != [] ==> Trusted(f, h, events[0]) && AllTrusted(f, Next(f, h, events[0]), events[1..])
  }

  ghost predicate EverManaged(f: Finalizer, h: History, events: seq<Event>)
    requires IsRun(f, h, events)
    decreases |events|
  {
    events != [] && (
      || (events[0].SyncEvent? && SyncOf(f, h, events[0]).managed)
      || EverManaged(f, Next(f, h, events[0]), events[1..]))
  }

  ghost predicate EverFinalized(f: Finalizer, h: History, events: seq<Event>)
    requires IsRun(f, h, events)
    decreases |events|
  {
    events != [] && (Finalized(f, h, events[0]) || EverFinalized(f, Next(f, h, events[0]), events[1..]))
  }

  ghost predicate EverEarly(f: Finalizer, h: History, events: seq<Event>)
    requires IsRun(f, h, events)
    decreases |events|
  {
    events != [] && (Early(f, h, events[0]) || EverEarly(f, Next(f, h, events[0]), events[1..]))
  }

  /** A version with the finalizer has only been followed by such versions. */
  ghost predicate Kept(f: Finalizer, h: History) {
    h.versions != [] && forall p | p in h.versions :: f.name in p.finalizers ==> f.name in Live(h).finalizers
  }

  /** A sync takes the finalizer off the object exactly if its hooks were asked, answered that they finished, and the
      removal gets through and finds it there once. */
  lemma FinalizerLostExactlyIf(f: Finalizer, h: History, e: Event)
    requires f.enabled && May(f, h, e) && Trusted(f, h, e) && e.SyncEvent? && f.name in Live(h).finalizers
    ensures f.name !in Live(Next(f, h, e)).finalizers <==>
      && SyncOf(f, h, e).asked.Some? && e.replies.hooks == Some(true)
      && e.replies.up && AtMostOnce(e.replies.live.finalizers, f.name)
  {
    hide SyncParent, Without, AtMostOnce;
    SyncLeaves(f, h.versions[e.cached], Live(h), e.up, e.replies);
    GoneIfOnce(e.replies.live.finalizers, f.name);
    AskedIfSynced(f, h.versions[e.cached], Live(h), e.up, e.replies);
  }

  lemma AskedIfSynced(f: Finalizer, cached: Parent, live: Parent, up: bool, replies: Replies)
    ensures SyncParent(f, cached, live, up, replies).asked == Synced(f, cached, live, up).1
    ensures f.enabled && f.name in live.finalizers ==>
      f.name in Now(Synced(f, cached, live, up).0, Synced(f, cached, live, up).1, live).finalizers
  {
  }

  lemma StepKeepsFinalizer(f: Finalizer, h: History, e: Event)
    requires f.enabled && Kept(f, h) && May(f, h, e) && Trusted(f, h, e) && !Finalized(f, h, e) && !Early(f, h, e)
    ensures Kept(f, Next(f, h, e))
    ensures f.name in Live(h).finalizers ==> f.name in Live(Next(f, h, e)).finalizers
    ensures e.SyncEvent? && SyncOf(f, h, e).managed ==> f.name in Live(Next(f, h, e)).finalizers
  {
    if e.SyncEvent? {
      SyncKeepsFinalizer(f, h, e);
      hide SyncParent, Synced, Early, Finalized, May, Trusted;
    }
  }

  lemma SyncKeepsFinalizer(f: Finalizer, h: History, e: Event)
    requires f.enabled && Kept(f, h) && e.SyncEvent? && May(f, h, e) && Trusted(f, h, e)
    requires !Finalized(f, h, e) && !Early(f, h, e)
    ensures var (requests, synced), now := Synced(f, h.versions[e.cached], Live(h), e.up), SyncOf(f, h, e).live;
      var between := Now(requests, synced, Live(h));
      && (f.name in Live(h).finalizers ==> f.name in between.finalizers)
      && (synced.Some? && f.name in between.finalizers ==> f.name in e.replies.live.finalizers)
      && (synced.None? && f.name in Live(h).finalizers ==> f.name in now.finalizers)
      && (synced.Some? && f.name in e.replies.live.finalizers ==> f.name in now.finalizers)
      && (SyncOf(f, h, e).managed ==> f.name in now.finalizers)
  {
    hide SyncParent, Synced, Without, AtMostOnce, Parent.Gone;
    var cached := h.versions[e.cached];
    assert cached in h.versions;
    SyncLeaves(f, cached, Live(h), e.up, e.replies);
    AskedIfSynced(f, cached, Live(h), e.up, e.replies);
    GoneIfOnce(e.replies.live.finalizers, f.name);
    if SyncOf(f, h, e).managed {
      ManagedHasFinalizer(f, cached, Live(h), e.up, e.replies);
    }
  }

  lemma {:induction false} FinalizerStays(f: Finalizer, h: History, events: seq<Event>)
    requires f.enabled && Kept(f, h) && IsRun(f, h, events) && AllTrusted(f, h, events)
    requires !EverFinalized(f, h, events) && !EverEarly(f, h, events)
    ensures f.name in Live(h).finalizers || EverManaged(f, h, events) ==> f.name in Live(After(f, h, events)).finalizers
    decreases |events|
  {
    if events == [] {
    } else {
      StepKeepsFinalizer(f, h, events[0]);
      FinalizerStays(f, Next(f, h, events[0]), events[1..]);
    }
  }

  /** A parent whose children were ever managed does not disappear before the hooks answered that they finished
      finalizing it while it was pending deletion, unless they answered so while it was alive. */
  lemma ChanceToCleanUp(f: Finalizer, first: Parent, events: seq<Event>)
    requires f.enabled && IsRun(f, History([first], 0), events) && AllTrusted(f, History([first], 0), events)
    requires EverManaged(f, History([first], 0), events)
    requires Live(After(f, History([first], 0), events)).Gone()
    ensures EverFinalized(f, History([first], 0), events) || EverEarly(f, History([first], 0), events)
  {
    if !EverFinalized(f, History([first], 0), events) && !EverEarly(f, History([first], 0), events) {
      FinalizerStays(f, History([first], 0), events);
    }
  }

  /** A sync managed the children, and the parent is gone without the hooks having finished finalizing it. */
  ghost predicate Uncleaned(f: Finalizer, h: History, events: seq<Event>) {
    && h.versions != [] && IsRun(f, h, events) && AllTrusted(f, h, events)
    && EverManaged(f, h, events) && !EverFinalized(f, h, events)
    && Live(After(f, h, events)).Gone()
  }

  /** Every early answer that leaves a living parent loses it: the children are managed, if they are valid, and the
      next deletion removes the parent at once. */
  lemma EarlyAnswerLoses(f: Finalizer, h: History, e: Event)
    requires May(f, h, e) && Trusted(f, h, e) && Early(f, h, e) && !e.replies.live.deleting && e.replies.valid
    ensures Uncleaned(f, h, [e, Other(Parent(true, []))])
  {
    var gone := Other(Parent(true, []));
    var next := Next(f, h, e);
    GoneIfOnce(e.replies.live.finalizers, f.name);
    assert SyncOf(f, h, e).managed && Live(next) == SyncOf(f, h, e).live;
    assert [e, gone][1..] == [gone] && [gone][1..] == [];
    assert May(f, next, gone) && Trusted(f, next, gone);
    assert After(f, next, [gone]) == Next(f, next, gone);
    assert !Finalized(f, h, e) && !EverFinalized(f, next, [gone]);
  }

  /** Whether a sync that managed the children leaves the parent to a deletion that nobody finalizes is decided by
      that: the hooks answered early, and so the finalizer was removed. */
  lemma UncleanedExactlyIf(f: Finalizer, h: History, e: Event)
    requires f.enabled && Kept(f, h) && May(f, h, e) && Trusted(f, h, e)
    requires e.SyncEvent? && SyncOf(f, h, e).managed
    ensures (exists next :: Uncleaned(f, h, [e, Other(next)])) <==> Early(f, h, e)
  {
    GoneIfOnce(e.replies.live.finalizers, f.name);
    if Early(f, h, e) {
      EarlyAnswerLoses(f, h, e);
    } else {
      forall next ensures !Uncleaned(f, h, [e, Other(next)]) {
        assert [e, Other(next)][1..] == [Other(next)];
        if Uncleaned(f, h, [e, Other(next)]) {
          StepKeepsFinalizer(f, h, e);
          OtherGone(f, Next(f, h, e), next);
        }
      }
    }
  }

  lemma OtherGone(f: Finalizer, h: History, next: Parent)
    requires h.versions != [] && IsRun(f, h, [Other(next)]) && AllTrusted(f, h, [Other(next)])
    requires f.name in Live(h).finalizers
    ensures !Live(After(f, h, [Other(next)])).Gone()
  {
    assert [Other(next)][1..] == [];
    assert After(f, h, [Other(next)]) == Next(f, h, Other(next));
  }

  /** Such a run, from a parent without any finalizer. */
  lemma FinalizedTooEarly(f: Finalizer)
    requires f.enabled
    ensures var early := SyncEvent(0, true, Replies(Some(true), Parent(false, [f.name]), true, true));
      Uncleaned(f, History([Parent(false, [])], 0), [early, Other(Parent(true, []))])
  {
    var h := History([Parent(false, [])], 0);
    var early := SyncEvent(0, true, Replies(Some(true), Parent(false, [f.name]), true, true));
    assert [] + [f.name] == [f.name];
    assert Synced(f, Live(h), Live(h), true) == ([Add], Some(Parent(false, [f.name])));
    EarlyAnswerLoses(f, h, early);
  }
}

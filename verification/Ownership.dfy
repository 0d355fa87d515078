/** What a generic controller asks the API server for when it applies the desired state of the cluster, and whose
    objects it leaves alone. */
module Ownership {
  import opened Basics
  import opened Json
  import opened Reconcile

  /** Objects are filed by API version and kind, and by namespace and name. */
  datatype Id = Id(kind: string, name: string)

  /** An object seen in the cluster. */
  datatype Seen = Seen(uid: string, pending: bool, content: Fields)

  datatype Method = Unset | OnDelete | Recreate | InPlace | RollingRecreate | RollingInPlace | Invalid

  const CREATED_KEY := "metac.openebs.io/created-due-to-watch"
  const UPDATED_SUFFIX := "/updated-due-to-watch"
  const LAST_APPLIED_SUFFIX := "/gctl-last-applied"

  datatype Base = Base(watchUid: string, watchKey: string, updateAny: bool, deleteAny: bool, updatePending: bool,
    strategy: string -> Method, patches: string -> bool, codec: Codec)
  {
    function AnnKey(): string {
      watchUid + LAST_APPLIED_SUFFIX
    }
  }

  function CreatedBy(content: Fields): string {
    if CREATED_KEY in Annotations(content) then Annotations(content)[CREATED_KEY] else ""
  }

  datatype Request =
    | Delete(id: Id, uid: string)
    | Update(id: Id, content: Fields)
    | Create(id: Id)

  // ---- the update of one object

  /** The object may be updated at all: it is not pending deletion, or this is allowed; it was created for the
      watch, or any object may be updated; and its kind is updated while it exists. */
  predicate MayUpdate(base: Base, id: Id, o: Seen) {
    && (o.pending ==> base.updatePending)
    && (CreatedBy(o.content) == base.watchUid || base.updateAny)
    && !base.strategy(id.kind).OnDelete? && !base.strategy(id.kind).Unset?
  }

  /** In patch mode the observed object itself is recorded in it as the last applied state. */
  function Recorded(base: Base, id: Id, o: Seen): Seen {
    if MayUpdate(base, id, o) && base.patches(id.kind) then
      o.(content := WithLastApplied(base.codec, o.content, base.AnnKey(), o.content))
    else o
  }

  /** The merged object, if there is something to change. */
  function Difference(base: Base, observed: Fields, desired: Fields): Option<Fields> {
    match ApplyMerge(base.codec, base.AnnKey(), true, observed, desired)
    case Failed => None
    case Merged(merged, equal, _) => if equal then None else Some(merged)
  }

  method FindDifference(base: Base, observed: Fields, desired: Fields) returns (r: Option<Fields>)
    ensures r == Difference(base, observed, desired)
  {
    var apply := new Apply(base.codec, base.AnnKey(), true);
    var outcome := apply.Merge(observed, desired);
    if outcome.Failed? {
      return None;
    }
    var diff := apply.HasMergeDiff();
    return if diff == Some(true) then Some(outcome.obj) else None;
  }

  function UpdateRequest(base: Base, id: Id, o: Seen, desired: Fields): Option<Request> {
    if !MayUpdate(base, id, o) then None
    else
      match Difference(base, Recorded(base, id, o).content, desired)
      case None => None
      case Some(merged) => ByStrategy(base, id, o.uid, merged)
  }

  function ByStrategy(base: Base, id: Id, uid: string, merged: Fields): Option<Request> {
    match base.strategy(id.kind)
    case Recreate => Some(Delete(id, uid))
    case RollingRecreate => Some(Delete(id, uid))
    case InPlace => Some(Update(id, Updated(base, merged)))
    case RollingInPlace => Some(Update(id, Updated(base, merged)))
    case _ => None
  }

  function Updated(base: Base, merged: Fields): Fields {
    WithAnnotations(merged, Annotations(merged)[base.watchUid + UPDATED_SUFFIX := base.watchKey])
  }

  // ---- the requests of each phase

  type Observed = map<Id, Seen>
  type Desired = map<Id, Fields>

  /** The update requests for these objects. */
  ghost function Updates(base: Base, ids: set<Id>, observed: Observed, desired: Desired): set<Request>
    requires ids <= desired.Keys
  {
    set id | id in ids && id in observed && UpdateRequest(base, id, observed[id], desired[id]).Some? ::
      UpdateRequest(base, id, observed[id], desired[id]).value
  }

  ghost function Creates(ids: set<Id>, observed: Observed): set<Request> {
    set id | id in ids && id !in observed :: Create(id)
  }

  ghost function Writes(base: Base, ids: set<Id>, observed: Observed, desired: Desired): multiset<Request>
    requires ids <= desired.Keys
  {
    multiset(Updates(base, ids, observed, desired)) + multiset(Creates(ids, observed))
  }

  predicate Obsolete(base: Base, id: Id, o: Seen, desired: Desired) {
    !o.pending && id !in desired && (CreatedBy(o.content) == base.watchUid || base.deleteAny)
  }

  ghost function Deletes(base: Base, ids: set<Id>, observed: Observed, desired: Desired): set<Request> {
    set id | id in ids && id in observed && Obsolete(base, id, observed[id], desired) :: Delete(id, observed[id].uid)
  }

  ghost function ExplicitDeletes(ids: set<Id>, observed: Observed, listed: set<Id>): set<Request> {
    set id | id in ids && id in observed && id in listed && !observed[id].pending :: Delete(id, observed[id].uid)
  }

  ghost function RecordedAll(base: Base, ids: set<Id>, observed: Observed): Observed {
    map id | id in observed :: if id in ids then Recorded(base, id, observed[id]) else observed[id]
  }

  class ClusterStates {
    const base: Base
    const desired: Desired
    const explicitUpdates: Desired
    const explicitDeletes: set<Id>
    const reachable: set<string>
    var observed: Observed
    var requests: seq<Request>

    constructor (base: Base, observed: Observed, desired: Desired, explicitUpdates: Desired, explicitDeletes: set<Id>,
      reachable: set<string>)
      ensures this.base == base && this.observed == observed && this.desired == desired
      ensures this.explicitUpdates == explicitUpdates && this.explicitDeletes == explicitDeletes
      ensures this.reachable == reachable && requests == []
    {
      this.base, this.observed, this.desired := base, observed, desired;
      this.explicitUpdates, this.explicitDeletes, this.reachable := explicitUpdates, explicitDeletes, reachable;
      requests := [];
    }

    /** The base is the controller's own, or the copy that explicit updates use. */
    method UpdateOne(base: Base, id: Id, content: Fields)
      requires id in observed
      modifies this`observed, this`requests
      ensures observed == old(observed)[id := Recorded(base, id, old(observed[id]))]
      ensures var r := UpdateRequest(base, id, old(observed[id]), content);
        requests == old(requests) + if r.Some? then [r.value] else []
    {
      hide Difference, WithLastApplied, CreatedBy, Updated;
      var o := observed[id];
      if o.pending && !base.updatePending {
        return;
      }
      if CreatedBy(o.content) != base.watchUid && !base.updateAny {
        return;
      }
      var strategy := base.strategy(id.kind);
      if strategy.OnDelete? || strategy.Unset? {
        return;
      }
      if base.patches(id.kind) {
        o := o.(content := WithLastApplied(base.codec, o.content, base.AnnKey(), o.content));
        observed := observed[id := o];
      }
      var merged := FindDifference(base, o.content, content);
      if merged.None? {
        return;
      }
      match strategy
      case Recreate => requests := requests + [Delete(id, o.uid)];
      case RollingRecreate => requests := requests + [Delete(id, o.uid)];
      case InPlace => requests := requests + [Update(id, Updated(base, merged.value))];
      case RollingInPlace => requests := requests + [Update(id, Updated(base, merged.value))];
      case _ =>
    }

    /** Deletes what is no longer desired. */
    method DeleteObsolete()
      modifies this`requests
      ensures Asks(old(requests), requests, multiset(Deletes(base, observed.Keys, observed, desired)))
    {
      AsksNothing(requests);
      var todo := observed.Keys;
      ghost var before := requests;
      assert Deletes(base, observed.Keys - todo, observed, desired) == {};
      while todo != {}
        invariant todo <= observed.Keys
        invariant Asks(before, requests, multiset(Deletes(base, observed.Keys - todo, observed, desired)))
        decreases todo
      {
        var id :| id in todo;
        var o := observed[id];
        DeletesOneMore(base, observed.Keys - todo, observed, desired, id);
        assert observed.Keys - (todo - {id}) == observed.Keys - todo + {id};
        if !o.pending && id !in desired && (CreatedBy(o.content) == base.watchUid || base.deleteAny) {
          AsksOneMore(before, requests, multiset(Deletes(base, observed.Keys - todo, observed, desired)),
            Delete(id, o.uid));
          requests := requests + [Delete(id, o.uid)];
        }
        todo := todo - {id};
      }
      assert observed.Keys - {} == observed.Keys;
    }

    method CreateOrUpdateOne(id: Id)
      requires id in desired
      modifies this`observed, this`requests
      ensures observed == if id in old(observed) then
        old(observed)[id := Recorded(base, id, old(observed[id]))] else old(observed)
      ensures requests == old(requests) + WriteOf(base, id, old(observed), desired)
    {
      if id in observed {
        UpdateOne(base, id, desired[id]);
      } else {
        requests := requests + [Create(id)];
      }
    }

    method CreateOrUpdate()
      modifies this`observed, this`requests
      ensures observed == RecordedAll(base, desired.Keys, old(observed))
      ensures Asks(old(requests), requests, Writes(base, desired.Keys, old(observed), desired))
    {
      hide Writes, RecordedAll, Recorded, UpdateRequest, WriteOf;
      NothingDone(base, observed, desired);
      AsksNothing(requests);
      var todo := desired.Keys;
      ghost var start, before := observed, requests;
      ghost var done: set<Id> := {};
      while todo != {}
        invariant todo <= desired.Keys && done == desired.Keys - todo
        invariant observed == RecordedAll(base, done, start)
        invariant Asks(before, requests, Writes(base, done, start, desired))
        decreases todo
      {
        var id :| id in todo;
        WritesOneMore(base, done, start, desired, id);
        RecordedOneMore(base, done, start, id);
        AsksMore(before, requests, Writes(base, done, start, desired), WriteOf(base, id, observed, desired));
        CreateOrUpdateOne(id);
        todo := todo - {id};
        done := done + {id};
      }
      assert done == desired.Keys;
    }

    method ExplicitUpdateOne(copy: Base, id: Id)
      requires id in explicitUpdates
      modifies this`observed, this`requests
      ensures observed == if id in old(observed) then
        old(observed)[id := Recorded(copy, id, old(observed[id]))] else old(observed)
      ensures requests == old(requests) + UpdateOf(copy, id, old(observed), explicitUpdates)
    {
      if id in observed {
        UpdateOne(copy, id, explicitUpdates[id]);
      }
    }

    /** Updates what is listed for it, as if any object could be updated. */
    method ExplicitUpdate()
      modifies this`observed, this`requests
      ensures observed.Keys == old(observed).Keys
      ensures forall id | id in observed ::
        observed[id].uid == old(observed)[id].uid && observed[id].pending == old(observed)[id].pending
      ensures Asks(old(requests), requests,
        multiset(Updates(base.(updateAny := true), explicitUpdates.Keys, old(observed), explicitUpdates)))
    {
      hide Updates, RecordedAll, Recorded, UpdateRequest, UpdateOf;
      var todo := explicitUpdates.Keys;
      var copy := base.(updateAny := true);
      NothingDone(copy, observed, explicitUpdates);
      AsksNothing(requests);
      ghost var start, before := observed, requests;
      ghost var done: set<Id> := {};
      while todo != {}
        invariant todo <= explicitUpdates.Keys && done == explicitUpdates.Keys - todo
        invariant observed == RecordedAll(copy, done, start)
        invariant Asks(before, requests, multiset(Updates(copy, done, start, explicitUpdates)))
        decreases todo
      {
        var id :| id in todo;
        UpdateOfOneMore(copy, done, start, explicitUpdates, id);
        RecordedOneMore(copy, done, start, id);
        AsksMore(before, requests, multiset(Updates(copy, done, start, explicitUpdates)),
          UpdateOf(copy, id, observed, explicitUpdates));
        ExplicitUpdateOne(copy, id);
        todo := todo - {id};
        done := done + {id};
      }
      assert done == explicitUpdates.Keys;
      RecordedKeeps(copy, done, start);
    }

    method ExplicitDelete()
      modifies this`requests
      ensures Asks(old(requests), requests, multiset(ExplicitDeletes(observed.Keys, observed, explicitDeletes)))
    {
      AsksNothing(requests);
      var todo := observed.Keys;
      ghost var before := requests;
      ghost var done: set<Id> := {};
      while todo != {}
        invariant todo <= observed.Keys && done == observed.Keys - todo
        invariant Asks(before, requests, multiset(ExplicitDeletes(done, observed, explicitDeletes)))
        decreases todo
      {
        var id :| id in todo;
        ExplicitDeletesOneMore(done, observed, explicitDeletes, id);
        if id in explicitDeletes && !observed[id].pending {
          AsksOneMore(before, requests, multiset(ExplicitDeletes(done, observed, explicitDeletes)),
            Delete(id, observed[id].uid));
          requests := requests + [Delete(id, observed[id].uid)];
        }
        todo := todo - {id};
        done := done + {id};
      }
      assert done == observed.Keys;
    }

    /** Asks for nothing if some kind cannot be reached, and else for exactly the plan, phase by phase, each request
        once in its phase. */
    method Apply() returns (ok: bool)
      requires requests == []
      modifies this`observed, this`requests
      ensures ok <==> forall id | id in old(observed).Keys + desired.Keys :: id.kind in reachable
      ensures !ok ==> requests == []
      ensures ok ==> InPhases(requests, Phases(base, old(observed), desired, explicitUpdates, explicitDeletes))
    {
      ok := forall id | id in observed.Keys + desired.Keys :: id.kind in reachable;
      if !ok {
        return;
      }
      hide Asks, InPhases, Deletes, Writes, Updates, ExplicitDeletes, RecordedAll;
      ghost var start := observed;
      DeleteObsolete();
      ghost var first := requests;
      CreateOrUpdate();
      ghost var second, recorded := requests, observed;
      RecordedKeeps(base, desired.Keys, start);
      ExplicitUpdate();
      ghost var third := requests;
      SameDeletes(start, recorded, observed, explicitDeletes);
      ExplicitDelete();
      ghost var phases := Phases(base, start, desired, explicitUpdates, explicitDeletes);
      AsksInPhases(first, second, third, requests, phases);
    }
  }

  /** More was asked for, and this. */
  ghost predicate Asks(before: seq<Request>, after: seq<Request>, made: multiset<Request>) {
    before <= after && multiset(after[|before|..]) == made
  }

  lemma AsksNothing(requests: seq<Request>)
    ensures Asks(requests, requests, multiset{})
  {
  }

  lemma AsksMore(before: seq<Request>, after: seq<Request>, made: multiset<Request>, more: seq<Request>)
    requires Asks(before, after, made)
    ensures Asks(before, after + more, made + multiset(more))
  {
    assert (after + more)[|before|..] == after[|before|..] + more;
  }

  lemma AsksOneMore(before: seq<Request>, after: seq<Request>, made: multiset<Request>, r: Request)
    requires Asks(before, after, made)
    ensures Asks(before, after + [r], made + multiset{r})
  {
    AsksMore(before, after, made, [r]);
  }

  // ---- the phases

  datatype PhaseRequests = PhaseRequests(deletes: multiset<Request>, writes: multiset<Request>,
    explicitUpdates: multiset<Request>, explicitDeletes: multiset<Request>)

  /** The phases stand one after the other. */
  ghost predicate InPhases(requests: seq<Request>, p: PhaseRequests) {
    var (a, b, c) := (|p.deletes|, |p.deletes| + |p.writes|, |p.deletes| + |p.writes| + |p.explicitUpdates|);
    && c <= |requests|
    && multiset(requests[..a]) == p.deletes && multiset(requests[a..b]) == p.writes
    && multiset(requests[b..c]) == p.explicitUpdates && multiset(requests[c..]) == p.explicitDeletes
  }

  lemma AsksInPhases(first: seq<Request>, second: seq<Request>, third: seq<Request>, all: seq<Request>,
      p: PhaseRequests)
    requires Asks([], first, p.deletes) && Asks(first, second, p.writes)
    requires Asks(second, third, p.explicitUpdates) && Asks(third, all, p.explicitDeletes)
    ensures InPhases(all, p)
  {
    hide *;
    ExtendsBoth(first, second, third, all, p);
    AskedAt([], first, p.deletes, all);
    AskedAt(first, second, p.writes, all);
    AskedAt(second, third, p.explicitUpdates, all);
    AskedAt(third, all, p.explicitDeletes, all);
    PhasesAt(all, p, |first|, |second|, |third|);
  }

  lemma ExtendsBoth(first: seq<Request>, second: seq<Request>, third: seq<Request>, all: seq<Request>,
      p: PhaseRequests)
    requires Asks(first, second, p.writes) && Asks(second, third, p.explicitUpdates)
    requires Asks(third, all, p.explicitDeletes)
    ensures first <= all && second <= all && third <= all
  {
  }

  /** What was asked for stands in the same place later. */
  lemma AskedAt(before: seq<Request>, after: seq<Request>, made: multiset<Request>, all: seq<Request>)
    requires Asks(before, after, made) && after <= all
    ensures |after| == |before| + |made| && multiset(all[|before|..|after|]) == made
  {
    assert |after[|before|..]| == |multiset(after[|before|..])|;
    assert all[|before|..|after|] == after[|before|..];
  }

  lemma PhasesAt(all: seq<Request>, p: PhaseRequests, a: nat, b: nat, c: nat)
    requires a == |p.deletes| && b == a + |p.writes| && c == b + |p.explicitUpdates| && c <= |all|
    requires multiset(all[0..a]) == p.deletes && multiset(all[a..b]) == p.writes
    requires multiset(all[b..c]) == p.explicitUpdates && multiset(all[c..|all|]) == p.explicitDeletes
    ensures InPhases(all, p)
  {
    assert all[0..a] == all[..a] && all[c..|all|] == all[c..];
  }

  ghost function Phases(base: Base, observed: Observed, desired: Desired, explicitUpdates: Desired,
      explicitDeletes: set<Id>): PhaseRequests
  {
    PhaseRequests(
      multiset(Deletes(base, observed.Keys, observed, desired)),
      Writes(base, desired.Keys, observed, desired),
      multiset(Updates(base.(updateAny := true), explicitUpdates.Keys,
        RecordedAll(base, desired.Keys, observed), explicitUpdates)),
      multiset(ExplicitDeletes(observed.Keys, observed, explicitDeletes)))
  }

  /** The deletes of what is no longer desired come before every create. */
  lemma DeletesBeforeCreates(requests: seq<Request>, base: Base, observed: Observed, desired: Desired,
      explicitUpdates: Desired, explicitDeletes: set<Id>, id: Id, i: nat)
    requires InPhases(requests, Phases(base, observed, desired, explicitUpdates, explicitDeletes))
    requires id in observed && !observed[id].pending && id !in desired
    requires CreatedBy(observed[id].content) == base.watchUid || base.deleteAny
    requires i < |requests| && requests[i].Create?
    ensures Delete(id, observed[id].uid) in requests[..i]
  {
    var p, r := Phases(base, observed, desired, explicitUpdates, explicitDeletes), Delete(id, observed[id].uid);
    assert r in Deletes(base, observed.Keys, observed, desired) && r in p.deletes;
    assert requests[i] !in Deletes(base, observed.Keys, observed, desired);
    hide Updates, ExplicitDeletes, Deletes, Writes, RecordedAll, InPhases;
    FirstBeforeOthers(requests, p, r, i);
  }

  lemma FirstBeforeOthers(requests: seq<Request>, p: PhaseRequests, r: Request, i: nat)
    requires InPhases(requests, p) && r in p.deletes && i < |requests| && requests[i] !in p.deletes
    ensures r in requests[..i]
  {
    var a := |p.deletes|;
    assert r in requests[..a];
    assert forall k: nat | k < a :: requests[..a][k] in multiset(requests[..a]) && requests[..a][k] == requests[k];
    assert requests[..i][..a] == requests[..a];
  }

  /** An object that is listed for both is updated before it is deleted. */
  lemma UpdatesBeforeDeletes(requests: seq<Request>, base: Base, observed: Observed, desired: Desired,
      explicitUpdates: Desired, explicitDeletes: set<Id>, id: Id, content: Fields)
    returns (i: nat, j: nat)
    requires InPhases(requests, Phases(base, observed, desired, explicitUpdates, explicitDeletes))
    requires id in observed && !observed[id].pending && id in explicitDeletes
    requires Edits(base.strategy(id.kind))
    requires var seen := SeenLater(base, id, observed[id], desired);
      ChangesTo(base.(updateAny := true), id, seen, explicitUpdates, content)
    ensures i < j < |requests| && requests[i] == Update(id, content) && requests[j] == Delete(id, observed[id].uid)
  {
    var p := Phases(base, observed, desired, explicitUpdates, explicitDeletes);
    ExplicitUpdateIsPlanned(base, observed, desired, explicitUpdates, id, content);
    assert Delete(id, observed[id].uid) in p.explicitDeletes;
    hide Updates, ExplicitDeletes, Deletes, Writes, RecordedAll, ChangesTo;
    i, j := ThirdBeforeLast(requests, p, Update(id, content), Delete(id, observed[id].uid));
  }

  lemma ThirdBeforeLast(requests: seq<Request>, p: PhaseRequests, r: Request, t: Request) returns (i: nat, j: nat)
    requires InPhases(requests, p) && r in p.explicitUpdates && t in p.explicitDeletes
    ensures i < j < |requests| && requests[i] == r && requests[j] == t
  {
    var b, c := |p.deletes| + |p.writes|, |p.deletes| + |p.writes| + |p.explicitUpdates|;
    assert r in requests[b..c] && t in requests[c..];
    i :| b <= i < c && requests[i] == r;
    j :| c <= j < |requests| && requests[j] == t;
  }

  lemma ExplicitUpdateIsPlanned(base: Base, observed: Observed, desired: Desired, explicitUpdates: Desired, id: Id,
      content: Fields)
    requires id in observed && Edits(base.strategy(id.kind))
    requires var seen := SeenLater(base, id, observed[id], desired);
      ChangesTo(base.(updateAny := true), id, seen, explicitUpdates, content)
    ensures Update(id, content) in Updates(base.(updateAny := true), explicitUpdates.Keys,
      RecordedAll(base, desired.Keys, observed), explicitUpdates)
  {
    var copy, recorded := base.(updateAny := true), RecordedAll(base, desired.Keys, observed);
    assert recorded[id] == SeenLater(base, id, observed[id], desired);
    UpdateRequests(copy, id, recorded[id], explicitUpdates);
    UpdateMembers(copy, recorded, explicitUpdates, id, Update(id, content));
    hide UpdateRequest, Updates, Recorded, Updated, Difference, CreatedBy;
  }

  /** What is desired and not observed is created, once, and nothing else is. */
  lemma CreatedExactlyIf(base: Base, observed: Observed, desired: Desired, explicitUpdates: Desired,
      explicitDeletes: set<Id>, id: Id)
    ensures Plan(base, observed, desired, explicitUpdates, explicitDeletes)[Create(id)]
      == if id in desired && id !in observed then 1 else 0
  {
    var recorded := RecordedAll(base, desired.Keys, observed);
    assert recorded.Keys == observed.Keys;
    UpdatesNeverCreate(base, observed, desired, id);
    UpdatesNeverCreate(base.(updateAny := true), recorded, explicitUpdates, id);
    hide UpdateRequest, Updates, RecordedAll;
    assert Create(id) in Creates(desired.Keys, observed) <==> id in desired && id !in observed;
  }

  lemma UpdatesNeverCreate(base: Base, observed: Observed, desired: Desired, id: Id)
    ensures Create(id) !in Updates(base, desired.Keys, observed, desired)
  {
    UpdateMembers(base, observed, desired, id, Create(id));
    if id in desired && id in observed {
      RequestNamesObject(base, id, observed[id], desired[id]);
    }
    hide UpdateRequest, Updates;
  }

  /** The requests of the four phases. Explicit updates see what patches recorded; explicit deletes do not look
      at the contents. */
  ghost function Plan(base: Base, observed: Observed, desired: Desired, explicitUpdates: Desired,
      explicitDeletes: set<Id>): multiset<Request>
  {
    var p := Phases(base, observed, desired, explicitUpdates, explicitDeletes);
    p.deletes + p.writes + p.explicitUpdates + p.explicitDeletes
  }

  lemma SameDeletes(start: Observed, recorded: Observed, end: Observed, listed: set<Id>)
    requires start.Keys == recorded.Keys == end.Keys
    requires forall id | id in start :: start[id].uid == recorded[id].uid == end[id].uid
    requires forall id | id in start :: start[id].pending == recorded[id].pending == end[id].pending
    ensures ExplicitDeletes(end.Keys, end, listed) == ExplicitDeletes(start.Keys, start, listed)
  {
  }

  lemma NothingDone(base: Base, observed: Observed, desired: Desired)
    ensures Updates(base, {}, observed, desired) == {} && Writes(base, {}, observed, desired) == multiset{}
    ensures RecordedAll(base, {}, observed) == observed
  {
  }

  lemma RecordedOneMore(base: Base, ids: set<Id>, observed: Observed, id: Id)
    requires id !in ids
    ensures var now := RecordedAll(base, ids, observed);
      && now.Keys == observed.Keys
      && (id in observed ==> now[id] == observed[id])
      && RecordedAll(base, ids + {id}, observed)
        == if id in observed then now[id := Recorded(base, id, observed[id])] else now
  {
  }

  lemma RecordedKeeps(base: Base, ids: set<Id>, observed: Observed)
    ensures var r := RecordedAll(base, ids, observed);
      && r.Keys == observed.Keys
      && forall id | id in r :: r[id].uid == observed[id].uid && r[id].pending == observed[id].pending
  {
  }

  lemma RequestNamesObject(base: Base, id: Id, o: Seen, desired: Fields)
    ensures var r := UpdateRequest(base, id, o, desired);
      r.Some? ==> r.value.id == id && !r.value.Create?
  {
    hide Difference, Updated, Recorded, MayUpdate;
  }

  lemma UpdatesOneMore(base: Base, ids: set<Id>, observed: Observed, desired: Desired, id: Id)
    requires ids <= desired.Keys && id in desired && id !in ids
    ensures var r := if id in observed then UpdateRequest(base, id, observed[id], desired[id]) else None;
      multiset(Updates(base, ids + {id}, observed, desired))
      == multiset(Updates(base, ids, observed, desired)) + if r.Some? then multiset{r.value} else multiset{}
  {
    hide UpdateRequest;
    forall i | i in desired && i in observed {
      RequestNamesObject(base, i, observed[i], desired[i]);
    }
    var r := if id in observed then UpdateRequest(base, id, observed[id], desired[id]) else None;
    var before, after := Updates(base, ids, observed, desired), Updates(base, ids + {id}, observed, desired);
    assert after == before + (if r.Some? then {r.value} else {});
    assert r.Some? ==> r.value !in before;
  }

  lemma CreatesOneMore(ids: set<Id>, observed: Observed, id: Id)
    requires id !in ids
    ensures multiset(Creates(ids + {id}, observed))
      == multiset(Creates(ids, observed)) + if id in observed then multiset{} else multiset{Create(id)}
  {
    assert Creates(ids + {id}, observed) == Creates(ids, observed) + if id in observed then {} else {Create(id)};
  }

  ghost function UpdateOf(base: Base, id: Id, observed: Observed, desired: Desired): seq<Request>
    requires id in desired
  {
    if id !in observed then []
    else
      var r := UpdateRequest(base, id, observed[id], desired[id]);
      if r.Some? then [r.value] else []
  }

  lemma UpdateOfOneMore(base: Base, ids: set<Id>, observed: Observed, desired: Desired, id: Id)
    requires ids <= desired.Keys && id in desired && id !in ids
    ensures multiset(Updates(base, ids + {id}, observed, desired))
      == multiset(Updates(base, ids, observed, desired)) + multiset(UpdateOf(base, id, observed, desired))
    ensures UpdateOf(base, id, RecordedAll(base, ids, observed), desired) == UpdateOf(base, id, observed, desired)
  {
    UpdatesOneMore(base, ids, observed, desired, id);
    hide Updates, UpdateRequest;
  }

  ghost function WriteOf(base: Base, id: Id, observed: Observed, desired: Desired): seq<Request>
    requires id in desired
  {
    if id !in observed then [Create(id)]
    else
      var r := UpdateRequest(base, id, observed[id], desired[id]);
      if r.Some? then [r.value] else []
  }

  lemma WritesOneMore(base: Base, ids: set<Id>, observed: Observed, desired: Desired, id: Id)
    requires ids <= desired.Keys && id in desired && id !in ids
    ensures Writes(base, ids + {id}, observed, desired)
      == Writes(base, ids, observed, desired) + multiset(WriteOf(base, id, observed, desired))
    ensures WriteOf(base, id, RecordedAll(base, ids, observed), desired) == WriteOf(base, id, observed, desired)
  {
    UpdatesOneMore(base, ids, observed, desired, id);
    CreatesOneMore(ids, observed, id);
  }

  lemma DeletesOneMore(base: Base, ids: set<Id>, observed: Observed, desired: Desired, id: Id)
    requires id in observed && id !in ids
    ensures multiset(Deletes(base, ids + {id}, observed, desired)) == multiset(Deletes(base, ids, observed, desired))
      + if Obsolete(base, id, observed[id], desired) then multiset{Delete(id, observed[id].uid)} else multiset{}
  {
    assert Deletes(base, ids + {id}, observed, desired) == Deletes(base, ids, observed, desired)
      + if Obsolete(base, id, observed[id], desired) then {Delete(id, observed[id].uid)} else {};
  }

  lemma ExplicitDeletesOneMore(ids: set<Id>, observed: Observed, listed: set<Id>, id: Id)
    requires id in observed && id !in ids
    ensures multiset(ExplicitDeletes(ids + {id}, observed, listed)) == multiset(ExplicitDeletes(ids, observed, listed))
      + if id in listed && !observed[id].pending then multiset{Delete(id, observed[id].uid)} else multiset{}
  {
    assert ExplicitDeletes(ids + {id}, observed, listed) == ExplicitDeletes(ids, observed, listed)
      + if id in listed && !observed[id].pending then {Delete(id, observed[id].uid)} else {};
  }

  // ---- whose objects are touched

  /** An update would change the object, and its pending deletion is no obstacle. */
  ghost predicate Changes(base: Base, id: Id, o: Seen, desired: Desired) {
    && id in desired && (o.pending ==> base.updatePending)
    && Difference(base, Recorded(base, id, o).content, desired[id]).Some?
  }

  /** An update would make this of the object. */
  ghost predicate ChangesTo(base: Base, id: Id, o: Seen, desired: Desired, content: Fields) {
    Changes(base, id, o, desired)
    && content == Updated(base, Difference(base, Recorded(base, id, o).content, desired[id]).value)
  }

  predicate Replaces(m: Method) {
    m.Recreate? || m.RollingRecreate?
  }

  predicate Edits(m: Method) {
    m.InPlace? || m.RollingInPlace?
  }

  lemma UpdateRequests(base: Base, id: Id, o: Seen, desired: Desired)
    requires id in desired
    ensures var may := (CreatedBy(o.content) == base.watchUid || base.updateAny) && Changes(base, id, o, desired);
      var r := UpdateRequest(base, id, o, desired[id]);
      && (r.Some? && r.value.Delete? <==> may && Replaces(base.strategy(id.kind)))
      && (r.Some? && r.value.Delete? ==> r.value == Delete(id, o.uid))
      && (r.Some? && r.value.Update? <==> may && Edits(base.strategy(id.kind)))
      && (r.Some? && r.value.Update? ==>
        r.value.content == Updated(base, Difference(base, Recorded(base, id, o).content, desired[id]).value))
      && (r.Some? ==> r.value.id == id && !r.value.Create?)
  {
    hide Difference, Updated, Recorded, CreatedBy;
  }

  /** The object as explicit updates see it. */
  ghost function SeenLater(base: Base, id: Id, o: Seen, desired: Desired): Seen {
    if id in desired then Recorded(base, id, o) else o
  }

  /** The requests of the plan that are made by updates. */
  lemma UpdateMembers(base: Base, observed: Observed, desired: Desired, id: Id, r: Request)
    requires r.id == id
    ensures r in Updates(base, desired.Keys, observed, desired) <==>
      id in desired && id in observed && UpdateRequest(base, id, observed[id], desired[id]) == Some(r)
  {
    forall i | i in desired && i in observed {
      UpdateRequests(base, i, observed[i], desired);
    }
  }

  /** An observed object is deleted exactly if it is obsolete and the watch's own, or any object may be deleted; if it
      is listed for deletion; or if an update that is permitted replaces it. Every delete carries its UID. */
  lemma DeletedExactlyIf(base: Base, observed: Observed, desired: Desired, explicitUpdates: Desired,
      explicitDeletes: set<Id>, id: Id, uid: string)
    requires id in observed
    ensures var o, own := observed[id], CreatedBy(observed[id].content) == base.watchUid;
      Delete(id, uid) in Plan(base, observed, desired, explicitUpdates, explicitDeletes) <==>
      uid == o.uid && (
        || (!o.pending && id !in desired && (own || base.deleteAny))
        || (!o.pending && id in explicitDeletes)
        || (Replaces(base.strategy(id.kind)) && (
          || ((own || base.updateAny) && Changes(base, id, o, desired))
          || Changes(base.(updateAny := true), id, SeenLater(base, id, o, desired), explicitUpdates))))
  {
    hide SeenLater, RecordedAll, CreatedBy, Difference, Updates, UpdateRequest, Recorded, Plan;
    var recorded := RecordedAll(base, desired.Keys, observed);
    var copy := base.(updateAny := true);
    RecordedAt(base, observed, desired, id);
    DeletesOf(base, observed, desired, explicitUpdates, explicitDeletes, id, uid);
    UpdateMembers(base, observed, desired, id, Delete(id, uid));
    UpdateMembers(copy, recorded, explicitUpdates, id, Delete(id, uid));
    if id in desired {
      UpdateRequests(base, id, observed[id], desired);
    }
    if id in explicitUpdates {
      UpdateRequests(copy, id, recorded[id], explicitUpdates);
    }
  }

  lemma RecordedAt(base: Base, observed: Observed, desired: Desired, id: Id)
    requires id in observed
    ensures var recorded := RecordedAll(base, desired.Keys, observed);
      && id in recorded && recorded[id] == SeenLater(base, id, observed[id], desired)
      && recorded[id].uid == observed[id].uid
  {
    hide MayUpdate, CreatedBy, WithLastApplied;
  }

  lemma DeletesOf(base: Base, observed: Observed, desired: Desired, explicitUpdates: Desired, explicitDeletes: set<Id>,
      id: Id, uid: string)
    requires id in observed
    ensures var o, r := observed[id], Delete(id, uid);
      r in Plan(base, observed, desired, explicitUpdates, explicitDeletes) <==>
      || (uid == o.uid && !o.pending && id !in desired && (CreatedBy(o.content) == base.watchUid || base.deleteAny))
      || r in Updates(base, desired.Keys, observed, desired)
      || r in Updates(base.(updateAny := true), explicitUpdates.Keys, RecordedAll(base, desired.Keys, observed),
        explicitUpdates)
      || (uid == o.uid && !o.pending && id in explicitDeletes)
  {
    hide Updates, RecordedAll, CreatedBy;
  }

  /** It is updated in place exactly if it is the watch's own, or any object may be updated, or it is listed for an
      update; and the update changes something. What is written is the merged object. */
  lemma UpdatedExactlyIf(base: Base, observed: Observed, desired: Desired, explicitUpdates: Desired,
      explicitDeletes: set<Id>, id: Id, content: Fields)
    requires id in observed
    ensures var o, own := observed[id], CreatedBy(observed[id].content) == base.watchUid;
      Update(id, content) in Plan(base, observed, desired, explicitUpdates, explicitDeletes) <==>
      Edits(base.strategy(id.kind)) && (
        || ((own || base.updateAny) && ChangesTo(base, id, o, desired, content))
        || ChangesTo(base.(updateAny := true), id, SeenLater(base, id, o, desired), explicitUpdates, content))
  {
    var recorded := RecordedAll(base, desired.Keys, observed);
    var copy := base.(updateAny := true);
    assert recorded[id] == SeenLater(base, id, observed[id], desired);
    UpdateMembers(base, observed, desired, id, Update(id, content));
    UpdateMembers(copy, recorded, explicitUpdates, id, Update(id, content));
    if id in desired {
      UpdateRequests(base, id, observed[id], desired);
    }
    if id in explicitUpdates {
      UpdateRequests(copy, id, recorded[id], explicitUpdates);
    }
    hide UpdateRequest, CreatedBy, Updates, Recorded, Updated, Difference;
  }

  /** An object that was not created for the watch, and that no policy and no list covers, is left alone. */
  lemma ForeignIsLeftAlone(base: Base, observed: Observed, desired: Desired, explicitUpdates: Desired,
      explicitDeletes: set<Id>, r: Request)
    requires r.id in observed && CreatedBy(observed[r.id].content) != base.watchUid
    requires !base.updateAny && !base.deleteAny && r.id !in explicitUpdates && r.id !in explicitDeletes
    ensures r !in Plan(base, observed, desired, explicitUpdates, explicitDeletes)
  {
    match r
    case Delete(id, uid) =>
      DeletedExactlyIf(base, observed, desired, explicitUpdates, explicitDeletes, id, uid);
    case Update(id, content) =>
      UpdatedExactlyIf(base, observed, desired, explicitUpdates, explicitDeletes, id, content);
    case Create(id) =>
      UpdateMembers(base, observed, desired, id, r);
      UpdateMembers(base.(updateAny := true), RecordedAll(base, desired.Keys, observed), explicitUpdates, id, r);
      if id in desired {
        UpdateRequests(base, id, observed[id], desired);
      }
  }
}

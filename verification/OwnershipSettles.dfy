/** What the pass after an update in place does with the object: nothing if the kind is merged, and if it is patched
    another update, as long as it may; and to whom the object belongs by then. */
module OwnershipSettles {
  import opened Basics
  import opened Json
  import opened ThreeWayMerge
  import opened MergeFixpoint
  import opened MergeRealises
  import opened Reconcile
  import opened ReconcileOnce
  import opened ReconcileFixpoint
  import opened ReconciledPaths
  import opened Ownership

  // ---- annotations after an update

  lemma UpdatedAnnotation(base: Base, obj: Fields, key: string)
    requires ApiObject(obj) && key != base.watchUid + UPDATED_SUFFIX
    ensures var r := Updated(base, obj);
      ApiObject(r) && SameAnn(r, obj, key)
  {
    AnnotatedOnce(obj, base.watchUid + UPDATED_SUFFIX, base.watchKey, key);
  }

  // ---- what is asked for when there is a difference

  /** Strategy by strategy, for a kind that is merged. An object that is written carries the note of the watch, and is
      otherwise the merged one. */
  lemma RequestByStrategy(base: Base, id: Id, o: Seen, d: Fields, merged: Fields, stored: Fields)
    requires (o.pending ==> base.updatePending) && !base.patches(id.kind)
    requires var own := "metac.openebs.io/created-due-to-watch";
      base.updateAny || (own in Annotations(o.content) && Annotations(o.content)[own] == base.watchUid)
    requires ApplyMerge(base.codec, base.watchUid + "/gctl-last-applied", true, o.content, d)
      == Merged(merged, false, stored)
    requires "metadata" in merged ==> merged["metadata"].Map?
    ensures var r := UpdateRequest(base, id, o, d);
      match base.strategy(id.kind)
      case Recreate | RollingRecreate => r == Some(Delete(id, o.uid))
      case InPlace | RollingInPlace =>
        r.Some? && r.value.Update? && r.value.id == id && Noted(base, merged, r.value.content)
      case OnDelete | Unset | Invalid => r.None?
  {
    hide ApplyMerge, Updated, Noted, Annotations;
    UpdaterIsNoted(base, merged);
    MergedAsItIs(base, id, o);
    DifferenceOf(base, o.content, d);
    hide Difference, Recorded, CreatedBy;
  }

  lemma MergedAsItIs(base: Base, id: Id, o: Seen)
    requires !base.patches(id.kind)
    ensures Recorded(base, id, o) == o
    ensures var own := "metac.openebs.io/created-due-to-watch";
      CreatedBy(o.content) == if own in Annotations(o.content) then Annotations(o.content)[own] else ""
    ensures base.AnnKey() == base.watchUid + "/gctl-last-applied"
  {
    hide Annotations, MayUpdate;
  }

  ghost predicate Noted(base: Base, merged: Fields, content: Fields) {
    var key := base.watchUid + "/updated-due-to-watch";
    && key in Annotations(content) && Annotations(content)[key] == base.watchKey
    && (forall k | k != key :: k in Annotations(content) <==> k in Annotations(merged))
    && (forall k | k != key && k in Annotations(merged) :: Annotations(content)[k] == Annotations(merged)[k])
    && SameExcept(content, merged, {"metadata"}) && SameExcept(Meta(content), Meta(merged), {"annotations"})
  }

  lemma UpdaterIsNoted(base: Base, merged: Fields)
    requires "metadata" in merged ==> merged["metadata"].Map?
    ensures Noted(base, merged, Updated(base, merged))
  {
    AnnotationsReadBack(merged, Annotations(merged)[base.watchUid + UPDATED_SUFFIX := base.watchKey]);
    hide WithAnnotations, Annotations;
  }

  // ---- whose the object is after an update

  /** Whom an annotation value names as the creator. */
  function Named(at: Lookup): string {
    match at
    case Present(Str(s)) => s
    case _ => ""
  }

  lemma CreatorIsNamed(obj: Fields)
    requires ApiObject(obj)
    ensures CreatedBy(obj) == Named(At(obj, AnnPath(CREATED_KEY)))
  {
    AnnotationAt(obj, CREATED_KEY);
  }

  lemma KeysDiffer(base: Base)
    ensures CREATED_KEY != base.AnnKey() && CREATED_KEY != base.watchUid + UPDATED_SUFFIX
    ensures base.watchUid + UPDATED_SUFFIX != base.AnnKey()
  {
    var applied, updated := base.AnnKey(), base.watchUid + UPDATED_SUFFIX;
    assert applied[|applied| - 1] == LAST_APPLIED_SUFFIX[|LAST_APPLIED_SUFFIX| - 1] == 'd';
    assert updated[|updated| - 1] == UPDATED_SUFFIX[|UPDATED_SUFFIX| - 1] == 'h';
    assert CREATED_KEY[|CREATED_KEY| - 1] == 'h';
    assert updated[|updated| - 20] == UPDATED_SUFFIX[|UPDATED_SUFFIX| - 20] == 'u';
    assert CREATED_KEY[|CREATED_KEY| - 20] == 'c';
  }

  /** An update names as the creator whom desired names. If desired names nobody, the observed creator stays, unless the
      annotation or something around it was applied last and is no longer desired: then the object is nobody's. */
  lemma CreatorAfterUpdate(base: Base, o: Fields, l: Fields, d: Fields)
    requires ApiObject(o) && DesiredObject(d, base.AnnKey()) && LastApplied(base.codec, o, base.AnnKey()) == Some(l)
    requires Difference(base, o, d).Some?
    ensures CreatedBy(Updated(base, Difference(base, o, d).value)) ==
      if At(d, AnnPath(CREATED_KEY)).Present? then Named(At(d, AnnPath(CREATED_KEY)))
      else if Governed(l, d, AnnPath(CREATED_KEY)) then ""
      else CreatedBy(o)
  {
    var m, sent := MergeMap(o, l, d), Difference(base, o, d).value;
    KeysDiffer(base);
    ReconciledAnnotation(base.codec, base.AnnKey(), true, o, l, d, CREATED_KEY);
    UpdatedAnnotation(base, sent, CREATED_KEY);
    CreatorIsNamed(o);
    CreatorIsNamed(Updated(base, sent));
    AnnotationAt(Updated(base, sent), CREATED_KEY);
    MergedMeta(o, l, d, base.AnnKey());
    AnnotationAt(m, CREATED_KEY);
    MergedCreator(base, o, l, d);
    hide MergeMap, Updated, CreatedBy, At, Ann, Difference;
  }

  lemma MergedCreator(base: Base, o: Fields, l: Fields, d: Fields)
    requires ApiObject(o) && DesiredObject(d, base.AnnKey())
    ensures At(MergeMap(o, l, d), AnnPath(CREATED_KEY)) ==
      if At(d, AnnPath(CREATED_KEY)).Present? then At(d, AnnPath(CREATED_KEY))
      else if Governed(l, d, AnnPath(CREATED_KEY)) then Absent
      else At(o, AnnPath(CREATED_KEY))
  {
    var path := AnnPath(CREATED_KEY);
    if At(d, path).Present? {
      AnnotationAt(d, CREATED_KEY);
      MergedMeta(o, l, d, base.AnnKey());
      MergedAnnotations(o, l, d, base.AnnKey());
      AnnotationAt(MergeMap(o, l, d), CREATED_KEY);
    } else if Governed(l, d, path) {
      DroppedPathsGo(o, l, d, path);
    } else {
      UngovernedPathsStay(o, l, d, path);
    }
  }

  lemma CreatorWhenStored(stored: Fields, sent: Fields)
    requires StoredAs(stored, sent) && ApiObject(sent)
    ensures ApiObject(stored) && Ann(stored) == Ann(sent) && CreatedBy(stored) == CreatedBy(sent)
  {
    assert "annotations" !in SystemFields() by {
      assert "annotations" !in SYSTEM_FIELDS;
    }
  }

  // ---- kinds that are merged

  lemma DifferenceOf(base: Base, o: Fields, d: Fields)
    ensures var outcome := ApplyMerge(base.codec, base.AnnKey(), true, o, d);
      && (Difference(base, o, d).Some? <==> outcome.Merged? && !outcome.equal)
      && (Difference(base, o, d).Some? ==> Difference(base, o, d).value == outcome.obj)
  {
    hide ApplyMerge;
  }

  /** Desired does not note another updater than the controller does. */
  ghost predicate NotedAlike(base: Base, d: Fields) {
    var key := base.watchUid + UPDATED_SUFFIX; key in Ann(d) ==> Ann(d)[key] == Str(base.watchKey)
  }

  /** Noting who updated the object leaves what the second pass needs to know of it. */
  lemma UpdatedCarries(base: Base, obj: Fields, merged: Fields, d: Fields)
    requires Carries(base.codec, base.AnnKey(), obj, merged, d) && NotedAlike(base, d)
    ensures Carries(base.codec, base.AnnKey(), Updated(base, obj), merged, d)
  {
    KeysDiffer(base);
    StillCarries(base.codec, base.AnnKey(), obj, merged, d, base.watchUid + UPDATED_SUFFIX, base.watchKey);
  }

  /** What an update leaves in the annotations of the stored object. */
  lemma StoredIsNoted(base: Base, o: Fields, l: Fields, d: Fields, stored: Fields)
    requires Faithful(base.codec) && ApiObject(o) && DesiredObject(d, base.AnnKey())
    requires LastApplied(base.codec, o, base.AnnKey()) == Some(l)
    requires Difference(base, o, d).Some? && StoredAs(stored, Updated(base, Difference(base, o, d).value))
    ensures ApiObject(stored) && LastApplied(base.codec, stored, base.AnnKey()) == Some(d)
    ensures Get(Ann(stored), base.watchUid + UPDATED_SUFFIX) == Str(base.watchKey)
  {
    var sent := Difference(base, o, d).value;
    KeysDiffer(base);
    DifferenceOf(base, o, d);
    FirstPass(base.codec, base.AnnKey(), true, o, l, d);
    UpdatedIsNoted(base, sent);
    UpdatedAnnotation(base, sent, base.AnnKey());
    CreatorWhenStored(stored, Updated(base, sent));
    AppliedIsRead(base, stored, d);
    hide Updated, MergeMap, FromJson, Difference, ApplyMerge, LastApplied;
  }

  /** If desired notes another updater, it is written again in every pass. */
  lemma NotedOtherwise(base: Base, stored: Fields, d: Fields)
    requires ApiObject(stored) && DesiredObject(d, base.AnnKey())
    requires LastApplied(base.codec, stored, base.AnnKey()) == Some(d)
    requires Get(Ann(stored), base.watchUid + UPDATED_SUFFIX) == Str(base.watchKey) && !NotedAlike(base, d)
    ensures Difference(base, stored, d).Some?
  {
    DifferenceOf(base, stored, d);
    ReconciledAnnotation(base.codec, base.AnnKey(), true, stored, d, d, base.watchUid + UPDATED_SUFFIX);
    MergedAnnotations(stored, d, d, base.AnnKey());
    hide MergeMap, FromJson, Difference, ApplyMerge, LastApplied, StringMap;
  }

  lemma UpdatedIsNoted(base: Base, obj: Fields)
    requires ApiObject(obj)
    ensures Get(Ann(Updated(base, obj)), base.watchUid + UPDATED_SUFFIX) == Str(base.watchKey)
    ensures ApiObject(Updated(base, obj))
  {
    AnnotationsReadBack(obj, Annotations(obj)[base.watchUid + UPDATED_SUFFIX := base.watchKey]);
  }

  lemma AppliedIsRead(base: Base, obj: Fields, d: Fields)
    requires Faithful(base.codec) && ApiObject(obj) && DesiredObject(d, base.AnnKey())
    requires Get(Ann(obj), base.AnnKey()) == Str(base.codec.encode(d))
    ensures LastApplied(base.codec, obj, base.AnnKey()) == Some(d)
  {
  }

  /** Merging the same desired state into the stored object again finds no difference exactly if what is left to the
      controller settles and desired notes no other updater, whatever the API server makes of the system fields and the
      status. */
  lemma UpdateSettles(base: Base, o: Fields, l: Fields, d: Fields, stored: Fields)
    requires Faithful(base.codec) && ApiObject(o) && DesiredObject(d, base.AnnKey())
    requires LastApplied(base.codec, o, base.AnnKey()) == Some(l) && OwnedRegular(o, l, d)
    requires Difference(base, o, d).Some? && StoredAs(stored, Updated(base, Difference(base, o, d).value))
    ensures Difference(base, stored, d) == None <==> OwnedSettles(o, l, d) && NotedAlike(base, d)
  {
    hide Difference, ApplyMerge, MergeMap, Updated, Owned, OwnedSettles, OwnedRegular, NotedAlike, HasAnnotations;
    var merged, sent := MergeMap(o, l, d), Difference(base, o, d).value;
    DifferenceOf(base, o, d);
    DifferenceOf(base, stored, d);
    if NotedAlike(base, d) {
      FirstPass(base.codec, base.AnnKey(), true, o, l, d);
      UpdatedCarries(base, sent, merged, d);
      StoredCarries(base.codec, base.AnnKey(), stored, Updated(base, sent), merged, d);
      MergedIsOwned(o, l, d, base.AnnKey());
      SecondPass(base.codec, base.AnnKey(), true, stored, merged, d);
    } else {
      StoredIsNoted(base, o, l, d, stored);
      NotedOtherwise(base, stored, d);
    }
  }

  /** So the next pass asks for something, if the kind is merged, exactly if the object may be updated, its strategy
      updates it, and that is not so. */
  lemma MergedKindSettles(base: Base, id: Id, o: Fields, l: Fields, d: Fields, stored: Fields, uid: string,
      pending: bool)
    requires Faithful(base.codec) && ApiObject(o) && DesiredObject(d, base.AnnKey())
    requires LastApplied(base.codec, o, base.AnnKey()) == Some(l) && OwnedRegular(o, l, d)
    requires Difference(base, o, d).Some? && StoredAs(stored, Updated(base, Difference(base, o, d).value))
    requires !base.patches(id.kind)
    ensures var seen := Seen(uid, pending, stored);
      UpdateRequest(base, id, seen, d).Some? <==>
      && MayUpdate(base, id, seen) && (Edits(base.strategy(id.kind)) || Replaces(base.strategy(id.kind)))
      && !(OwnedSettles(o, l, d) && NotedAlike(base, d))
  {
    UpdateSettles(base, o, l, d, stored);
    MergedRequest(base, id, Seen(uid, pending, stored), d);
    hide Difference, MayUpdate, OwnedSettles, NotedAlike, Updated, UpdateRequest;
  }

  lemma MergedRequest(base: Base, id: Id, o: Seen, d: Fields)
    requires !base.patches(id.kind)
    ensures UpdateRequest(base, id, o, d).Some? <==>
      && MayUpdate(base, id, o) && (Edits(base.strategy(id.kind)) || Replaces(base.strategy(id.kind)))
      && Difference(base, o.content, d).Some?
  {
    hide Difference, Updated, CreatedBy, WithLastApplied;
  }

  // ---- kinds that are patched

  /** The observed object with itself recorded as the last applied state. */
  function RecordedContent(base: Base, o: Fields): Fields {
    WithLastApplied(base.codec, o, base.AnnKey(), o)
  }

  lemma RecordingContent(base: Base, o: Fields, key: string)
    requires Faithful(base.codec) && ApiObject(o) && FromJson(Map(o))
    ensures var r := RecordedContent(base, o);
      && ApiObject(r) && LastApplied(base.codec, r, base.AnnKey()) == Some(o)
      && base.AnnKey() in Ann(r) && (key != base.AnnKey() ==> SameAnn(r, o, key))
  {
    AnnotationsReadBack(o, Annotations(o)[base.AnnKey() := base.codec.encode(o)]);
    AnnotatedOnce(o, base.AnnKey(), base.codec.encode(o), key);
  }

  /** An object that carries the watch's last applied state always differs: patching drops that annotation, and then
      sets it anew. */
  lemma PatchedDiffers(base: Base, o: Fields, d: Fields)
    requires Faithful(base.codec) && ApiObject(o) && FromJson(Map(o)) && DesiredObject(d, base.AnnKey())
    requires base.AnnKey() in Ann(o)
    ensures Difference(base, RecordedContent(base, o), d).Some?
  {
    hide Difference, ApplyMerge, RecordedContent, MergeMap, At, Governed;
    var r, path := RecordedContent(base, o), AnnPath(base.AnnKey());
    DifferenceOf(base, r, d);
    RecordingContent(base, o, base.AnnKey());
    ReconciledAnnotation(base.codec, base.AnnKey(), true, r, o, d, base.AnnKey());
    AnnotationAt(o, base.AnnKey());
    AnnotationAt(d, base.AnnKey());
    AppliedPathsAreGoverned(o, d, path);
    DroppedPathsGo(r, o, d, path);
    MergedMeta(r, o, d, base.AnnKey());
    AnnotationAt(MergeMap(r, o, d), base.AnnKey());
    hide Ann;
  }

  /** After a patch the object is whose desired says it is. */
  lemma CreatorAfterPatch(base: Base, o: Fields, d: Fields)
    requires Faithful(base.codec) && ApiObject(o) && FromJson(Map(o)) && DesiredObject(d, base.AnnKey())
    requires Difference(base, RecordedContent(base, o), d).Some?
    ensures CreatedBy(Updated(base, Difference(base, RecordedContent(base, o), d).value))
      == Named(At(d, AnnPath(CREATED_KEY)))
  {
    var r, path := RecordedContent(base, o), AnnPath(CREATED_KEY);
    KeysDiffer(base);
    RecordingContent(base, o, CREATED_KEY);
    CreatorAfterUpdate(base, r, o, d);
    if At(d, path) == Absent && !Governed(o, d, path) {
      if At(o, path) != Absent {
        AppliedPathsAreGoverned(o, d, path);
      }
      CreatorIsNamed(r);
      AnnotationAt(r, CREATED_KEY);
      AnnotationAt(o, CREATED_KEY);
    }
    hide RecordedContent, Difference, Updated, CreatedBy, At, Ann, Governed;
  }

  /** A patched kind never settles: the pass after an update asks for another one, exactly if it may update anything or
      desired itself names the watch as the creator. Otherwise the update made the object nobody's, and it is left
      alone. */
  lemma PatchedKindUpdatesAgain(base: Base, id: Id, o: Fields, d: Fields, stored: Fields, uid: string, pending: bool)
    requires Faithful(base.codec) && ApiObject(o) && FromJson(Map(o)) && DesiredObject(d, base.AnnKey())
    requires Difference(base, RecordedContent(base, o), d).Some?
    requires StoredAs(stored, Updated(base, Difference(base, RecordedContent(base, o), d).value))
    requires FromJson(Map(stored))
    requires base.patches(id.kind) && Edits(base.strategy(id.kind))
    ensures var r := UpdateRequest(base, id, Seen(uid, pending, stored), d);
      r.Some? && r.value.Update? <==>
      (pending ==> base.updatePending) && (base.updateAny || Named(At(d, AnnPath(CREATED_KEY))) == base.watchUid)
  {
    var sent := Difference(base, RecordedContent(base, o), d).value;
    CreatorAfterPatch(base, o, d);
    PatchedIsStored(base, o, d, stored);
    PatchedDiffers(base, stored, d);
    PatchedRequest(base, id, Seen(uid, pending, stored), d);
    hide Difference, Updated, CreatedBy, At, UpdateRequest, RecordedContent;
  }

  lemma PatchedRequest(base: Base, id: Id, o: Seen, d: Fields)
    requires base.patches(id.kind) && Edits(base.strategy(id.kind))
    requires Difference(base, RecordedContent(base, o.content), d).Some?
    ensures var r := UpdateRequest(base, id, o, d); r.Some? && r.value.Update? <==> MayUpdate(base, id, o)
  {
    hide Difference, Updated, CreatedBy, WithLastApplied;
  }

  lemma PatchedIsStored(base: Base, o: Fields, d: Fields, stored: Fields)
    requires Faithful(base.codec) && ApiObject(o) && FromJson(Map(o)) && DesiredObject(d, base.AnnKey())
    requires Difference(base, RecordedContent(base, o), d).Some?
    requires StoredAs(stored, Updated(base, Difference(base, RecordedContent(base, o), d).value))
    ensures ApiObject(stored) && base.AnnKey() in Ann(stored)
    ensures CreatedBy(stored) == CreatedBy(Updated(base, Difference(base, RecordedContent(base, o), d).value))
  {
    var r := RecordedContent(base, o);
    var sent := Difference(base, r, d).value;
    RecordingContent(base, o, CREATED_KEY);
    KeysDiffer(base);
    FirstPass(base.codec, base.AnnKey(), true, r, o, d);
    UpdatedAnnotation(base, sent, base.AnnKey());
    CreatorWhenStored(stored, Updated(base, sent));
    hide RecordedContent, MergeMap, Updated, CreatedBy;
  }
}

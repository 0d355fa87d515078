/** What a reconcile leaves in the object: the merged tree, with the system fields and the status put back and the
    desired state in an annotation. */
module ReconcileOnce {
  import opened Basics
  import opened Json
  import opened ThreeWayMerge
  import opened MergeFixpoint
  import opened Reconcile

  /** An object as the API server returns it: with metadata, whose annotations are strings. */
  ghost predicate ApiObject(obj: Fields) {
    && "metadata" in obj && obj["metadata"].Map?
    && ("annotations" in Meta(obj) ==> StringMap(Meta(obj)["annotations"]))
  }

  /** A desired state as a hook returns it: it need not have metadata, and does not set the annotation
      that the controller keeps for itself. */
  ghost predicate DesiredObject(obj: Fields, annKey: string) {
    && obj != map[] && FromJson(Map(obj))
    && ("metadata" in obj ==> obj["metadata"].Map?)
    && ("annotations" in Meta(obj) ==>
      StringMap(Meta(obj)["annotations"]) && annKey !in Meta(obj)["annotations"].fields)
  }

  ghost predicate StringMap(v: Value) {
    v.Map? && AllStrings(v.fields)
  }

  // ---- what putting the system fields back does

  ghost function Reverted(meta: Fields, orig: Fields, names: seq<string>): Fields {
    map k | k in meta.Keys + orig.Keys && (if k in names then k in orig else k in meta) ::
      if k in names then orig[k] else meta[k]
  }

  ghost predicate SameExcept(a: Fields, b: Fields, names: set<string>) {
    forall k | k !in names :: (k in a <==> k in b) && Get(a, k) == Get(b, k)
  }

  lemma RevertedOnce(once: Fields, meta: Fields, orig: Fields, names: seq<string>)
    requires names != [] && once == if names[0] in orig then meta[names[0] := orig[names[0]]] else meta - {names[0]}
    ensures Reverted(once, orig, names[1..]) == Reverted(meta, orig, names)
  {
    assert forall k :: k in names <==> k == names[0] || k in names[1..];
    SameFields(Reverted(once, orig, names[1..]), Reverted(meta, orig, names));
  }

  lemma {:induction false} RevertingMeta(merged: Fields, orig: Fields, names: seq<string>)
    requires "metadata" in merged ==> merged["metadata"].Map?
    requires "metadata" in orig && orig["metadata"].Map?
    ensures RevertMetaFields(merged, orig, names).Some?
    ensures var r := RevertMetaFields(merged, orig, names).value;
      && SameExcept(r, merged, {"metadata"})
      && ("metadata" in merged ==> "metadata" in r)
      && ("metadata" in r ==> r["metadata"].Map?)
      && Meta(r) == Reverted(Meta(merged), Meta(orig), names)
    decreases |names|
  {
    if names == [] {
      assert Meta(merged) == Reverted(Meta(merged), Meta(orig), []);
    } else {
      var once := RevertMetaField(merged, orig, names[0]).value;
      RevertingMeta(once, orig, names[1..]);
      RevertedOnce(Meta(once), Meta(merged), Meta(orig), names);
    }
  }

  ghost function SystemFields(): set<string> {
    set k | k in SYSTEM_FIELDS
  }

  /** `r` is `merged` with the system fields and the status of `orig`. */
  ghost predicate PutBack(r: Fields, merged: Fields, orig: Fields) {
    && SameExcept(r, merged, {"metadata", "status"})
    && ("status" in r <==> "status" in orig) && Get(r, "status") == Get(orig, "status")
    && ("metadata" in merged ==> "metadata" in r)
    && ("metadata" in r ==> r["metadata"].Map?)
    && Meta(r) == Reverted(Meta(merged), Meta(orig), SYSTEM_FIELDS)
  }

  lemma PuttingBack(merged: Fields, orig: Fields)
    requires "metadata" in merged ==> merged["metadata"].Map?
    requires "metadata" in orig && orig["metadata"].Map?
    ensures var r := RevertMetaFields(merged, orig, SYSTEM_FIELDS);
      r.Some? && PutBack(RevertStatus(r.value, orig), merged, orig)
  {
    RevertingMeta(merged, orig, SYSTEM_FIELDS);
    var r := RevertMetaFields(merged, orig, SYSTEM_FIELDS).value;
    assert Get(RevertStatus(r, orig), "metadata") == Get(r, "metadata");
  }

  lemma PutBackOnlySystemFields(r: Fields, merged: Fields, orig: Fields)
    requires PutBack(r, merged, orig)
    ensures SameExcept(Meta(r), Meta(merged), SystemFields())
    ensures "annotations" !in SystemFields()
  {
    assert "annotations" !in SYSTEM_FIELDS;
  }

  // ---- the first pass

  lemma AnnotationsReadBack(obj: Fields, annotations: map<string, string>)
    requires "metadata" in obj ==> obj["metadata"].Map?
    ensures var r := WithAnnotations(obj, annotations);
      && Annotations(r) == annotations
      && "metadata" in r && r["metadata"] == Map(Meta(obj)["annotations" := Strings(annotations)])
      && SameExcept(r, obj, {"metadata"})
  {
  }

  lemma SanitizingKeeps(d: Fields, annKey: string)
    requires DesiredObject(d, annKey)
    ensures Sanitized(d, annKey) == d
  {
    if Get(Meta(d), "annotations").Map? {
      var annotations := Meta(d)["annotations"].fields;
      assert annotations - {annKey} == annotations;
      assert Meta(d)["annotations" := Map(annotations)] == Meta(d);
    }
  }

  /** What the second pass needs to know of the object: outside the fields that every pass puts back it
      is the merged tree, and its annotations hold those of desired and the desired state itself. */
  ghost predicate Carries(codec: Codec, annKey: string, obj: Fields, merged: Fields, d: Fields) {
    && SameExcept(obj, merged, {"metadata", "status"})
    && "metadata" in obj && obj["metadata"].Map?
    && SameExcept(Meta(obj), Meta(merged), SystemFields() + {"annotations"})
    && "annotations" in Meta(obj) && StringMap(Meta(obj)["annotations"])
    && Get(Meta(obj)["annotations"].fields, annKey) == Str(codec.encode(d))
    && forall k | k in AsMap(Get(Meta(d), "annotations")) ::
      Get(Meta(obj)["annotations"].fields, k) == AsMap(Get(Meta(d), "annotations"))[k]
  }

  lemma MergedMeta(o: Fields, l: Fields, d: Fields, annKey: string)
    requires ApiObject(o) && DesiredObject(d, annKey)
    ensures var m := MergeMap(o, l, d);
      && ("metadata" in d ==> "metadata" in m && m["metadata"].Map?)
      && ("metadata" in d ==> Meta(m) == MergeMap(Meta(o), AsMap(Get(l, "metadata")), Meta(d)))
      && ("metadata" !in d && "metadata" in m ==> m["metadata"] == o["metadata"])
  {
    if "metadata" in d {
      MergedField(o, l, d, "metadata");
      MergeOfMap(o["metadata"], Get(l, "metadata"), d["metadata"]);
    }
  }

  lemma MergedAnnotations(o: Fields, l: Fields, d: Fields, annKey: string)
    requires ApiObject(o) && DesiredObject(d, annKey)
    ensures var m := MergeMap(o, l, d);
      && ("annotations" in Meta(m) ==> StringMap(Meta(m)["annotations"]))
      && forall k | k in AsMap(Get(Meta(d), "annotations")) ::
        Get(AsMap(Get(Meta(m), "annotations")), k) == AsMap(Get(Meta(d), "annotations"))[k]
  {
    var om, lm, dm := Meta(o), AsMap(Get(l, "metadata")), Meta(d);
    MergedMeta(o, l, d, annKey);
    if "annotations" in dm {
      MergedField(om, lm, dm, "annotations");
      MergedStrings(Get(om, "annotations"), Get(lm, "annotations"), dm["annotations"]);
    }
    hide Merge, AllStrings;
  }

  lemma MergedStrings(o: Value, l: Value, d: Value)
    requires (o == Null || StringMap(o)) && StringMap(d)
    ensures StringMap(Merge(o, l, d)) && forall k | k in d.fields :: Get(Merge(o, l, d).fields, k) == d.fields[k]
  {
    if o == Null {
      MergeOfScalar(o, l, d);
    } else {
      MergeOfMap(o, l, d);
      forall k | k in d.fields ensures MergeMap(o.fields, AsMap(l), d.fields)[k] == d.fields[k] {
        MergedField(o.fields, AsMap(l), d.fields, k);
        MergeOfScalar(Get(o.fields, k), Get(AsMap(l), k), d.fields[k]);
      }
    }
  }

  lemma Annotating(obj: Fields, key: string, value: string)
    requires "metadata" in obj ==> obj["metadata"].Map?
    requires "annotations" in Meta(obj) ==> StringMap(Meta(obj)["annotations"])
    ensures var r := WithAnnotations(obj, Annotations(obj)[key := value]);
      && SameExcept(r, obj, {"metadata"})
      && "metadata" in r && r["metadata"].Map?
      && SameExcept(Meta(r), Meta(obj), {"annotations"})
      && "annotations" in Meta(r) && StringMap(Meta(r)["annotations"])
      && Get(Meta(r)["annotations"].fields, key) == Str(value)
      && forall k | k != key ::
        Get(Meta(r)["annotations"].fields, k) == Get(AsMap(Get(Meta(obj), "annotations")), k)
  {
    AnnotationsReadBack(obj, Annotations(obj)[key := value]);
  }

  lemma AnnotatedCarries(codec: Codec, annKey: string, reverted: Fields, merged: Fields, d: Fields)
    requires DesiredObject(d, annKey)
    requires SameExcept(reverted, merged, {"metadata", "status"})
    requires "metadata" in reverted ==> reverted["metadata"].Map?
    requires SameExcept(Meta(reverted), Meta(merged), SystemFields())
    requires "annotations" in Meta(reverted) ==> StringMap(Meta(reverted)["annotations"])
    requires forall k | k in AsMap(Get(Meta(d), "annotations")) ::
      Get(AsMap(Get(Meta(reverted), "annotations")), k) == AsMap(Get(Meta(d), "annotations"))[k]
    ensures Carries(codec, annKey, WithLastApplied(codec, reverted, annKey, d), merged, d)
  {
    Annotating(reverted, annKey, codec.encode(d));
    hide WithAnnotations, Annotations;
  }

  /** So does an object that gets another annotation, one that the desired state does not set to something else. */
  lemma StillCarries(codec: Codec, annKey: string, obj: Fields, merged: Fields, d: Fields, key: string, value: string)
    requires Carries(codec, annKey, obj, merged, d)
    requires key != annKey
    requires var desired := AsMap(Get(Meta(d), "annotations")); key in desired ==> desired[key] == Str(value)
    ensures Carries(codec, annKey, WithAnnotations(obj, Annotations(obj)[key := value]), merged, d)
  {
    Annotating(obj, key, value);
    hide WithAnnotations, Annotations;
  }

  lemma FirstPass(codec: Codec, annKey: string, sanitize: bool, o: Fields, l: Fields, d: Fields)
    requires ApiObject(o) && DesiredObject(d, annKey)
    requires LastApplied(codec, o, annKey) == Some(l)
    ensures var outcome := ApplyMerge(codec, annKey, sanitize, o, d);
      outcome.Merged? && outcome.applied == d && Carries(codec, annKey, outcome.obj, MergeMap(o, l, d), d)
  {
    var m := MergeMap(o, l, d);
    ReconciledFrom(codec, annKey, sanitize, o, l, d);
    var reverted := RevertStatus(RevertMetaFields(m, o, SYSTEM_FIELDS).value, o);
    RevertedIsReady(o, l, d, annKey);
    hide RevertMetaFields, RevertStatus, MergeMap, Carries, ApplyMerge;
    AnnotatedCarries(codec, annKey, reverted, m, d);
  }

  lemma ReconciledFrom(codec: Codec, annKey: string, sanitize: bool, o: Fields, l: Fields, d: Fields)
    requires ApiObject(o) && DesiredObject(d, annKey) && LastApplied(codec, o, annKey) == Some(l)
    ensures RevertMetaFields(MergeMap(o, l, d), o, SYSTEM_FIELDS).Some?
    ensures var reverted := RevertStatus(RevertMetaFields(MergeMap(o, l, d), o, SYSTEM_FIELDS).value, o);
      ApplyMerge(codec, annKey, sanitize, o, d)
      == Merged(WithLastApplied(codec, reverted, annKey, d), reverted == o, d)
  {
    MergedMeta(o, l, d, annKey);
    PuttingBack(MergeMap(o, l, d), o);
    SanitizingKeeps(d, annKey);
    hide RevertMetaFields, RevertStatus, MergeMap, Sanitized, LastApplied;
  }

  /** With the system fields and the status put back, the merged tree is ready to be annotated. */
  lemma RevertedIsReady(o: Fields, l: Fields, d: Fields, annKey: string)
    requires ApiObject(o) && DesiredObject(d, annKey)
    ensures var m := MergeMap(o, l, d);
      var r := RevertMetaFields(m, o, SYSTEM_FIELDS);
      && r.Some?
      && var reverted := RevertStatus(r.value, o);
        && SameExcept(reverted, m, {"metadata", "status"})
        && ("metadata" in reverted ==> reverted["metadata"].Map?)
        && SameExcept(Meta(reverted), Meta(m), SystemFields())
        && ("annotations" in Meta(reverted) ==> StringMap(Meta(reverted)["annotations"]))
        && AsMap(Get(Meta(reverted), "annotations")) == AsMap(Get(Meta(m), "annotations"))
        && forall k | k in AsMap(Get(Meta(d), "annotations")) ::
          Get(AsMap(Get(Meta(reverted), "annotations")), k) == AsMap(Get(Meta(d), "annotations"))[k]
  {
    var m := MergeMap(o, l, d);
    MergedMeta(o, l, d, annKey);
    MergedAnnotations(o, l, d, annKey);
    PuttingBack(m, o);
    var reverted := RevertStatus(RevertMetaFields(m, o, SYSTEM_FIELDS).value, o);
    PutBackOnlySystemFields(reverted, m, o);
    hide RevertMetaFields, RevertStatus, MergeMap;
  }

  // ---- what the object tells the next pass

  /** Storing a desired state that is stored already changes nothing. */
  lemma StoredAlready(codec: Codec, annKey: string, obj: Fields, d: Fields)
    requires "metadata" in obj && obj["metadata"].Map?
    requires "annotations" in Meta(obj) && StringMap(Meta(obj)["annotations"])
    requires Get(Meta(obj)["annotations"].fields, annKey) == Str(codec.encode(d))
    ensures WithLastApplied(codec, obj, annKey, d) == obj
  {
    var annotations := Annotations(obj);
    assert annotations[annKey := codec.encode(d)] == annotations;
    assert Strings(annotations) == Meta(obj)["annotations"];
    assert Meta(obj)["annotations" := Strings(annotations)] == Meta(obj);
  }

  lemma DesiredWasLastApplied(codec: Codec, annKey: string, obj: Fields, merged: Fields, d: Fields)
    requires Faithful(codec) && DesiredObject(d, annKey) && Carries(codec, annKey, obj, merged, d)
    ensures LastApplied(codec, obj, annKey) == Some(d)
    ensures WithLastApplied(codec, obj, annKey, d) == obj
  {
    StoredAlready(codec, annKey, obj, d);
  }

  /** What the API server may return for an object that was sent to it: system fields and status are its own. */
  ghost predicate StoredAs(stored: Fields, sent: Fields) {
    && SameExcept(stored, sent, {"metadata", "status"})
    && "metadata" in stored && stored["metadata"].Map?
    && SameExcept(Meta(stored), Meta(sent), SystemFields())
  }

  lemma StoredCarries(codec: Codec, annKey: string, stored: Fields, sent: Fields, merged: Fields, d: Fields)
    requires Carries(codec, annKey, sent, merged, d) && StoredAs(stored, sent)
    ensures Carries(codec, annKey, stored, merged, d)
  {
    assert "annotations" !in SystemFields() by {
      assert "annotations" !in SYSTEM_FIELDS;
    }
  }

  /** An object that was last reconciled with another desired state always differs. */
  lemma OtherDesiredIsSeen(codec: Codec, annKey: string, sanitize: bool, o: Fields, l: Fields, d: Fields)
    requires Faithful(codec) && ApiObject(o) && DesiredObject(d, annKey)
    requires LastApplied(codec, o, annKey) == Some(l) && l != d
    ensures ApplyMerge(codec, annKey, sanitize, o, d).Merged?
    ensures ApplyMerge(codec, annKey, sanitize, o, d).obj != o
  {
    FirstPass(codec, annKey, sanitize, o, l, d);
    hide Carries, ApplyMerge, LastApplied;
    DesiredWasLastApplied(codec, annKey, ApplyMerge(codec, annKey, sanitize, o, d).obj, MergeMap(o, l, d), d);
  }

  /** A stored object tells which desired state it was reconciled with. */
  lemma StoredTellsDesired(codec: Codec, annKey: string, sanitize: bool, o: Fields, l: Fields, d: Fields,
      stored: Fields)
    requires Faithful(codec) && ApiObject(o) && DesiredObject(d, annKey)
    requires LastApplied(codec, o, annKey) == Some(l)
    requires var sent := ApplyMerge(codec, annKey, sanitize, o, d); sent.Merged? && StoredAs(stored, sent.obj)
    ensures ApiObject(stored) && LastApplied(codec, stored, annKey) == Some(d)
  {
    var sent := ApplyMerge(codec, annKey, sanitize, o, d).obj;
    FirstPass(codec, annKey, sanitize, o, l, d);
    StoredCarries(codec, annKey, stored, sent, MergeMap(o, l, d), d);
    DesiredWasLastApplied(codec, annKey, stored, MergeMap(o, l, d), d);
    hide ApplyMerge, LastApplied, MergeMap;
  }
}

/** What a reconcile makes of every path of the object, the first one included. */
module ReconciledPaths {
  import opened Basics
  import opened Json
  import opened MergeKey
  import opened ThreeWayMerge
  import opened MergeRealises
  import opened Reconcile
  import opened ReconcileOnce

  // ---- annotations

  function Ann(obj: Fields): Fields {
    AsMap(Get(Meta(obj), "annotations"))
  }

  function AnnPath(key: string): seq<string> {
    ["metadata", "annotations", key]
  }

  lemma AnnotationAt(obj: Fields, key: string)
    requires "metadata" in obj ==> obj["metadata"].Map?
    ensures At(obj, AnnPath(key)) == if key in Ann(obj) then Present(Ann(obj)[key]) else Absent
  {
    var rest, last := ["annotations", key], [key];
    assert AnnPath(key)[1..] == rest && rest[1..] == last;
    if "metadata" in obj {
      assert At(obj, AnnPath(key)) == At(Meta(obj), rest);
      if "annotations" in Meta(obj) && Meta(obj)["annotations"].Map? {
        assert At(Meta(obj), rest) == At(Ann(obj), last);
      }
    }
  }

  /** Both objects have the annotation, with the same value, or neither has it. */
  ghost predicate SameAnn(a: Fields, b: Fields, key: string) {
    (key in Ann(a) <==> key in Ann(b)) && Get(Ann(a), key) == Get(Ann(b), key)
  }

  /** An annotation that the controller does not set itself comes through a reconcile as the merge leaves it. */
  lemma ReconciledAnnotation(codec: Codec, annKey: string, sanitize: bool, o: Fields, l: Fields, d: Fields, key: string)
    requires ApiObject(o) && DesiredObject(d, annKey) && LastApplied(codec, o, annKey) == Some(l)
    ensures var outcome := ApplyMerge(codec, annKey, sanitize, o, d);
      && outcome.Merged? && ApiObject(outcome.obj)
      && (key != annKey ==> SameAnn(outcome.obj, MergeMap(o, l, d), key))
      && (outcome.equal ==> SameAnn(o, MergeMap(o, l, d), key))
  {
    ReconciledFrom(codec, annKey, sanitize, o, l, d);
    RevertedIsReady(o, l, d, annKey);
    hide RevertMetaFields, RevertStatus, MergeMap, ApplyMerge, WithLastApplied, Ann;
    var reverted := RevertStatus(RevertMetaFields(MergeMap(o, l, d), o, SYSTEM_FIELDS).value, o);
    AppliedOnce(codec, reverted, annKey, d, key);
    assert Ann(reverted) == Ann(MergeMap(o, l, d)) by {
      AnnOf(reverted);
      AnnOf(MergeMap(o, l, d));
    }
  }

  lemma AnnOf(obj: Fields)
    ensures Ann(obj) == AsMap(Get(Meta(obj), "annotations"))
  {
  }

  lemma AppliedOnce(codec: Codec, obj: Fields, annKey: string, d: Fields, key: string)
    requires d != map[]
    requires "metadata" in obj ==> obj["metadata"].Map?
    requires "annotations" in Meta(obj) ==> StringMap(Meta(obj)["annotations"])
    ensures var r := WithLastApplied(codec, obj, annKey, d);
      ApiObject(r) && (key != annKey ==> SameAnn(r, obj, key))
  {
    AnnotatedOnce(obj, annKey, codec.encode(d), key);
  }

  lemma AnnotatedOnce(obj: Fields, annKey: string, value: string, key: string)
    requires "metadata" in obj ==> obj["metadata"].Map?
    requires "annotations" in Meta(obj) ==> StringMap(Meta(obj)["annotations"])
    ensures var r := WithAnnotations(obj, Annotations(obj)[annKey := value]);
      ApiObject(r) && (key != annKey ==> SameAnn(r, obj, key))
  {
    AnnotationsReadBack(obj, Annotations(obj)[annKey := value]);
  }

  // ---- paths

  lemma PathAlike(a: Fields, b: Fields, path: seq<string>)
    requires path != [] && (path[0] in a <==> path[0] in b) && Get(a, path[0]) == Get(b, path[0])
    ensures At(a, path) == At(b, path)
  {
  }

  lemma PathBelow(a: Fields, k: string, path: seq<string>)
    requires |path| > 1 && path[0] == k
    ensures At(a, path) == if k in a && a[k].Map? then At(a[k].fields, path[1..]) else Absent
  {
  }

  /** The status and the system fields of an object, or something below them. */
  ghost predicate PutBackPath(path: seq<string>) {
    || (path != [] && path[0] == "status")
    || (|path| > 1 && path[0] == "metadata" && path[1] in
      {"selfLink", "uid", "resourceVersion", "generation", "creationTimestamp", "deletionTimestamp"})
  }

  /** The path leads to or through the annotation that the controller keeps for itself. */
  ghost predicate Touches(path: seq<string>, annKey: string) {
    path <= AnnPath(annKey) || AnnPath(annKey) <= path
  }

  lemma SystemFieldsAre(k: string)
    ensures k in SystemFields() <==>
      k in {"selfLink", "uid", "resourceVersion", "generation", "creationTimestamp", "deletionTimestamp"}
  {
  }

  /** What putting the fields back makes of a path. */
  lemma PutBackAt(r: Fields, merged: Fields, o: Fields, path: seq<string>)
    requires PutBack(r, merged, o) && path != [] && path != ["metadata"]
    requires "metadata" in merged ==> merged["metadata"].Map?
    requires "metadata" in o && o["metadata"].Map?
    ensures At(r, path) == if PutBackPath(path) then At(o, path) else At(merged, path)
  {
    if path[0] == "metadata" {
      var k, rest := path[1], path[1..];
      SystemFieldsAre(k);
      PathBelow(r, "metadata", path);
      PathBelow(merged, "metadata", path);
      PathBelow(o, "metadata", path);
      assert k in SYSTEM_FIELDS <==> k in SystemFields();
      if k in SystemFields() {
        PathAlike(Meta(r), Meta(o), rest);
      } else {
        PathAlike(Meta(r), Meta(merged), rest);
      }
      NoPath(rest);
    } else if path[0] == "status" {
      PathAlike(r, o, path);
    } else {
      PathAlike(r, merged, path);
    }
  }

  lemma NoPath(path: seq<string>)
    requires path != []
    ensures At(map[], path) == Absent
  {
  }

  /** Annotating touches only the annotation. */
  lemma AnnotatedAt(codec: Codec, obj: Fields, annKey: string, d: Fields, path: seq<string>)
    requires d != map[] && !Touches(path, annKey)
    requires "metadata" in obj ==> obj["metadata"].Map?
    requires "annotations" in Meta(obj) ==> StringMap(Meta(obj)["annotations"])
    ensures At(WithLastApplied(codec, obj, annKey, d), path) == At(obj, path)
  {
    var r := WithLastApplied(codec, obj, annKey, d);
    Annotating(obj, annKey, codec.encode(d));
    hide WithLastApplied;
    if path[0] != "metadata" {
      PathAlike(r, obj, path);
    } else {
      var rest := path[1..];
      PathBelow(r, "metadata", path);
      PathBelow(obj, "metadata", path);
      NoPath(rest);
      if rest[0] != "annotations" {
        PathAlike(Meta(r), Meta(obj), rest);
      } else {
        var last := rest[1..];
        PathBelow(Meta(r), "annotations", rest);
        PathBelow(Meta(obj), "annotations", rest);
        NoPath(last);
        AppliedOnce(codec, obj, annKey, d, last[0]);
        assert path[..3] == ["metadata", "annotations", last[0]];
        PathAlike(Ann(r), Ann(obj), last);
      }
    }
  }

  /** A reconcile puts the status and the system fields back, keeps its own annotation, and leaves every other path as
      the merge with the last applied state makes it. */
  lemma ReconciledAt(codec: Codec, annKey: string, sanitize: bool, o: Fields, l: Fields, d: Fields, path: seq<string>)
    requires ApiObject(o) && DesiredObject(d, annKey) && LastApplied(codec, o, annKey) == Some(l)
    requires path != [] && !Touches(path, annKey)
    ensures var outcome := ApplyMerge(codec, annKey, sanitize, o, d);
      && outcome.Merged?
      && At(outcome.obj, path) == if PutBackPath(path) then At(o, path) else At(MergeMap(o, l, d), path)
  {
    var m := MergeMap(o, l, d);
    ReconciledFrom(codec, annKey, sanitize, o, l, d);
    RevertedIsReady(o, l, d, annKey);
    MergedMeta(o, l, d, annKey);
    PuttingBack(m, o);
    var reverted := RevertStatus(RevertMetaFields(m, o, SYSTEM_FIELDS).value, o);
    hide RevertMetaFields, RevertStatus, MergeMap, ApplyMerge, WithLastApplied, PutBack;
    PutBackAt(reverted, m, o, path);
    AnnotatedAt(codec, reverted, annKey, d, path);
  }

  lemma {:induction false} NothingAppliedGoverns(d: Fields, path: seq<string>)
    requires path != []
    ensures Governed(map[], d, path) <==> At(d, path) != Absent
    decreases |path|
  {
    if |path| == 1 || path[0] !in d {
    } else {
      NothingAppliedGoverns(AsMap(d[path[0]]), path[1..]);
    }
  }

  /** The first reconcile of an object that carries no annotation of this controller takes nothing away from it: every
      path that desired does not set keeps its value. */
  lemma FirstContact(codec: Codec, annKey: string, sanitize: bool, o: Fields, d: Fields, path: seq<string>)
    requires ApiObject(o) && DesiredObject(d, annKey)
    requires annKey !in Annotations(o) || Annotations(o)[annKey] == ""
    requires path != [] && !Touches(path, annKey) && (At(d, path) == Absent || PutBackPath(path))
    ensures var outcome := ApplyMerge(codec, annKey, sanitize, o, d);
      outcome.Merged? && At(outcome.obj, path) == At(o, path)
  {
    assert LastApplied(codec, o, annKey) == Some(map[]);
    ReconciledAt(codec, annKey, sanitize, o, map[], d, path);
    if At(d, path) == Absent {
      NothingAppliedGoverns(d, path);
      UngovernedPathsStay(o, map[], d, path);
    }
    hide ApplyMerge, LastApplied, At;
  }

  /** Later ones take away exactly what was stored as applied before and is no longer desired. */
  lemma LaterContact(codec: Codec, annKey: string, sanitize: bool, o: Fields, text: string, l: Fields, d: Fields,
      path: seq<string>)
    requires ApiObject(o) && DesiredObject(d, annKey)
    requires annKey in Annotations(o) && Annotations(o)[annKey] == text != "" && codec.decode(text) == Some(l)
    requires path != [] && !Touches(path, annKey) && At(d, path) == Absent && !PutBackPath(path)
    ensures var outcome := ApplyMerge(codec, annKey, sanitize, o, d);
      outcome.Merged? && At(outcome.obj, path) == if Governed(l, d, path) then Absent else At(o, path)
  {
    assert LastApplied(codec, o, annKey) == Some(l);
    ReconciledAt(codec, annKey, sanitize, o, l, d, path);
    if Governed(l, d, path) {
      DroppedPathsGo(o, l, d, path);
    } else {
      UngovernedPathsStay(o, l, d, path);
    }
    hide ApplyMerge, LastApplied, At;
  }

  /** An annotation that cannot be read fails the reconcile, rather than counting as nothing applied. */
  lemma UnreadableFails(codec: Codec, annKey: string, sanitize: bool, o: Fields, d: Fields)
    requires annKey in Annotations(o) && Annotations(o)[annKey] != "" && codec.decode(Annotations(o)[annKey]).None?
    ensures ApplyMerge(codec, annKey, sanitize, o, d).Failed?
  {
  }

  /** Desired labels arrive. */
  lemma DesiredLabelsArrive(codec: Codec, annKey: string, sanitize: bool, o: Fields, l: Fields, d: Fields,
      name: string, value: string)
    requires ApiObject(o) && DesiredObject(d, annKey) && LastApplied(codec, o, annKey) == Some(l)
    requires "labels" in Meta(o) ==> StringMap(Meta(o)["labels"])
    requires "labels" in Meta(d) && StringMap(Meta(d)["labels"]) && name in Meta(d)["labels"].fields
    requires Meta(d)["labels"].fields[name] == Str(value)
    ensures var outcome := ApplyMerge(codec, annKey, sanitize, o, d);
      outcome.Merged? && At(outcome.obj, ["metadata", "labels", name]) == Present(Str(value))
  {
    hide ApplyMerge, MergeMap, LastApplied;
    var path := ["metadata", "labels", name];
    assert path[1..] == ["labels", name] && path[1..][1..] == [name];
    assert !Touches(path, annKey) by {
      assert path[1] != AnnPath(annKey)[1];
    }
    ReconciledAt(codec, annKey, sanitize, o, l, d, path);
    MergedLabels(o, l, d, annKey);
    var m := MergeMap(o, l, d);
    PathBelow(m, "metadata", path);
    PathBelow(Meta(m), "labels", path[1..]);
  }

  lemma MergedLabels(o: Fields, l: Fields, d: Fields, annKey: string)
    requires ApiObject(o) && DesiredObject(d, annKey) && "labels" in Meta(d) && StringMap(Meta(d)["labels"])
    requires "labels" in Meta(o) ==> StringMap(Meta(o)["labels"])
    ensures var m := MergeMap(o, l, d);
      && "metadata" in m && m["metadata"].Map? && "labels" in Meta(m) && StringMap(Meta(m)["labels"])
      && forall k | k in Meta(d)["labels"].fields :: Get(Meta(m)["labels"].fields, k) == Meta(d)["labels"].fields[k]
  {
    assert "metadata" in d;
    MergedMeta(o, l, d, annKey);
    MergedField(Meta(o), AsMap(Get(l, "metadata")), Meta(d), "labels");
    MergedStrings(Get(Meta(o), "labels"), Get(AsMap(Get(l, "metadata")), "labels"), Meta(d)["labels"]);
    hide MergeMap, Merge;
  }

  /** The difference is found before the annotation is written: an object that has all that is desired but no
      annotation gets one, without a difference being reported. */
  lemma AnnotationIsNoDifference(codec: Codec, annKey: string, sanitize: bool, o: Fields, d: Fields)
    requires ApiObject(o) && DesiredObject(d, annKey) && annKey !in Annotations(o)
    requires MergeMap(o, map[], d) == o
    ensures var outcome := ApplyMerge(codec, annKey, sanitize, o, d);
      && outcome.Merged? && outcome.equal && outcome.obj != o
      && Annotations(outcome.obj) == Annotations(o)[annKey := codec.encode(d)]
  {
    assert LastApplied(codec, o, annKey) == Some(map[]);
    ReconciledFrom(codec, annKey, sanitize, o, map[], d);
    PuttingBack(o, o);
    PutBackItself(RevertStatus(RevertMetaFields(o, o, SYSTEM_FIELDS).value, o), o);
    AnnotationsReadBack(o, Annotations(o)[annKey := codec.encode(d)]);
    hide RevertMetaFields, RevertStatus, MergeMap, LastApplied;
  }

  lemma PutBackItself(r: Fields, o: Fields)
    requires PutBack(r, o, o) && "metadata" in o && o["metadata"].Map?
    ensures r == o
  {
    assert Reverted(Meta(o), Meta(o), SYSTEM_FIELDS) == Meta(o);
    forall k ensures (k in r <==> k in o) && Get(r, k) == Get(o, k) {
    }
  }

  // ---- what is stored

  /** The state that is stored never carries the annotation it is stored in, also if desired does; the rest of it is
      the desired state. */
  lemma StoredStateIsClean(codec: Codec, annKey: string, o: Fields, d: Fields, path: seq<string>)
    requires "metadata" in d ==> d["metadata"].Map?
    requires "annotations" in Meta(d) ==> Meta(d)["annotations"].Map?
    ensures var outcome := ApplyMerge(codec, annKey, true, o, d);
      outcome.Merged? ==>
        && annKey !in Ann(outcome.applied)
        && (path != [] && !Touches(path, annKey) ==> At(outcome.applied, path) == At(d, path))
  {
    SanitizedIsClean(d, annKey);
    if path != [] && !Touches(path, annKey) {
      SanitizedAt(d, annKey, path);
    }
    hide Sanitized, At, RevertMetaFields, RevertStatus, LastApplied, WithLastApplied, MergeMap;
  }

  lemma SanitizedIsClean(d: Fields, annKey: string)
    ensures annKey !in Ann(Sanitized(d, annKey))
  {
  }

  lemma SanitizedAt(d: Fields, annKey: string, path: seq<string>)
    requires path != [] && !Touches(path, annKey)
    ensures At(Sanitized(d, annKey), path) == At(d, path)
  {
    var r := Sanitized(d, annKey);
    if path[0] != "metadata" {
      PathAlike(r, d, path);
    } else if Get(Meta(d), "annotations").Map? {
      var rest := path[1..];
      PathBelow(r, "metadata", path);
      PathBelow(d, "metadata", path);
      if rest[0] != "annotations" {
        PathAlike(Meta(r), Meta(d), rest);
      } else {
        var last := rest[1..];
        PathBelow(Meta(r), "annotations", rest);
        PathBelow(Meta(d), "annotations", rest);
        assert path[..3] == ["metadata", "annotations", last[0]];
        PathAlike(Ann(r), Ann(d), last);
      }
    }
  }
}

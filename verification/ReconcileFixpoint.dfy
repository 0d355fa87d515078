/** When exactly a second reconcile with the same desired state finds nothing to do. */
module ReconcileFixpoint {
  import opened Basics
  import opened Json
  import opened ThreeWayMerge
  import opened MergeFixpoint
  import opened Reconcile
  import opened ReconcileOnce

  // ---- what is left to the controller

  /** The object without the status and the system fields, which every reconcile puts back. */
  ghost function Owned(obj: Fields): Fields {
    if Get(obj, "metadata").Map? then (obj - {"status"})["metadata" := Map(Meta(obj) - SystemFields())]
    else obj - {"status"}
  }

  lemma MergeOfLess(o: Fields, l: Fields, d: Fields, names: set<string>)
    ensures MergeMap(o - names, l - names, d - names) == MergeMap(o, l, d) - names
  {
    var less, whole := MergeMap(o - names, l - names, d - names), MergeMap(o, l, d) - names;
    forall k | k in d && k !in names ensures less[k] == whole[k] {
      MergedField(o, l, d, k);
      MergedField(o - names, l - names, d - names, k);
    }
    SameFields(less, whole);
  }

  lemma OwnedFields(obj: Fields)
    ensures Owned(obj).Keys == obj.Keys - {"status"}
    ensures forall k | k != "metadata" && k != "status" :: Get(Owned(obj), k) == Get(obj, k)
    ensures "metadata" in obj && !obj["metadata"].Map? ==> Owned(obj)["metadata"] == obj["metadata"]
    ensures "metadata" in obj && obj["metadata"].Map? ==> Owned(obj)["metadata"] == Map(Meta(obj) - SystemFields())
  {
  }

  lemma OwnedMergeAt(o: Fields, l: Fields, d: Fields, k: string)
    requires k in MergeMap(Owned(o), Owned(l), Owned(d)) && k != "metadata"
    ensures var m := MergeMap(o, l, d);
      k in Owned(m) && Owned(m)[k] == MergeMap(Owned(o), Owned(l), Owned(d))[k]
  {
    var m := MergeMap(o, l, d);
    OwnedFields(o);
    OwnedFields(l);
    OwnedFields(d);
    OwnedFields(m);
    hide Owned, Merge;
    assert k in m && k != "status" && Get(Owned(m), k) == Get(m, k);
    assert Get(Owned(o), k) == Get(o, k) && Get(Owned(l), k) == Get(l, k) && Get(Owned(d), k) == Get(d, k);
    if k in d {
      MergedField(o, l, d, k);
      MergedField(Owned(o), Owned(l), Owned(d), k);
    }
  }

  /** What is left to the controller is merged on its own. */
  lemma OwnedMerge(o: Fields, l: Fields, d: Fields, annKey: string)
    requires ApiObject(o) && DesiredObject(d, annKey)
    ensures Owned(MergeMap(o, l, d)) == MergeMap(Owned(o), Owned(l), Owned(d))
  {
    var m, r := MergeMap(o, l, d), MergeMap(Owned(o), Owned(l), Owned(d));
    OwnedFields(o);
    OwnedFields(l);
    OwnedFields(d);
    OwnedFields(m);
    hide Owned, Merge, ApiObject, DesiredObject;
    assert Owned(m).Keys == r.Keys;
    forall k | k in r ensures Owned(m)[k] == r[k] {
      if k == "metadata" {
        OwnedMergeOfMeta(o, l, d, annKey);
      } else {
        OwnedMergeAt(o, l, d, k);
      }
    }
    SameFields(Owned(m), r);
  }

  lemma OwnedMergeOfMeta(o: Fields, l: Fields, d: Fields, annKey: string)
    requires ApiObject(o) && DesiredObject(d, annKey) && "metadata" in MergeMap(o, l, d)
    ensures var r := MergeMap(Owned(o), Owned(l), Owned(d));
      "metadata" in r && r["metadata"] == Owned(MergeMap(o, l, d))["metadata"]
  {
    MergedMeta(o, l, d, annKey);
    if "metadata" in d {
      var om, lm, dm := Meta(o), AsMap(Get(l, "metadata")), Meta(d);
      MergedField(Owned(o), Owned(l), Owned(d), "metadata");
      MergeOfMap(Owned(o)["metadata"], Get(Owned(l), "metadata"), Owned(d)["metadata"]);
      assert AsMap(Get(Owned(l), "metadata")) == lm - SystemFields();
      MergeOfLess(om, lm, dm, SystemFields());
    }
  }

  // ---- from the merged tree to the stored object

  /** A merge with itself as the last applied state settles field by field. */
  lemma SettlesByField(m: Fields, d: Fields)
    ensures MergeMap(m, d, d) == m <==> forall k | k in d :: k in m && Merge(m[k], d[k], d[k]) == m[k]
  {
    forall k | k in d ensures MergeMap(m, d, d)[k] == Merge(Get(m, k), d[k], d[k]) {
      MergedField(m, d, d, k);
    }
    if MergeMap(m, d, d).Keys == m.Keys {
      SameFields(MergeMap(m, d, d), m);
    }
    hide MergeMap, Merge;
  }

  lemma StringsSettle(a: Value, d: Value)
    requires StringMap(a) && StringMap(d) && forall k | k in d.fields :: Get(a.fields, k) == d.fields[k]
    ensures Merge(a, d, d) == a
  {
    MergeOfMap(a, d, d);
    forall k | k in d.fields ensures k in a.fields && Merge(a.fields[k], d.fields[k], d.fields[k]) == a.fields[k] {
      MergeOfScalar(a.fields[k], d.fields[k], d.fields[k]);
    }
    SettlesByField(a.fields, d.fields);
  }

  /** The annotations of the tree hold those of desired. */
  ghost predicate HasAnnotations(meta: Fields, dm: Fields) {
    "annotations" in dm ==>
      && StringMap(dm["annotations"])
      && "annotations" in meta && StringMap(meta["annotations"])
      && forall k | k in dm["annotations"].fields :: Get(meta["annotations"].fields, k) == dm["annotations"].fields[k]
  }

  /** Whether metadata settles does not depend on annotations that hold those of desired. */
  lemma MetaSettlesAlike(a: Fields, b: Fields, dm: Fields)
    requires HasAnnotations(a, dm) && HasAnnotations(b, dm) && SameExcept(a, b, {"annotations"})
    ensures MergeMap(a, dm, dm) == a <==> MergeMap(b, dm, dm) == b
  {
    SettlesByField(a, dm);
    SettlesByField(b, dm);
    if "annotations" in dm {
      StringsSettle(a["annotations"], dm["annotations"]);
      StringsSettle(b["annotations"], dm["annotations"]);
    }
    hide MergeMap, Merge, HasAnnotations;
    forall k | k in dm && k != "annotations"
      ensures (k in a && Merge(a[k], dm[k], dm[k]) == a[k]) <==> (k in b && Merge(b[k], dm[k], dm[k]) == b[k])
    {
      assert Get(a, k) == Get(b, k);
    }
  }

  lemma AnnotationsAreOwned()
    ensures "annotations" !in SystemFields()
  {
    assert "annotations" !in SYSTEM_FIELDS;
  }

  /** So what is left to the controller settles on the stored object as it does on the merged tree. */
  lemma StoredSettlesAlike(codec: Codec, annKey: string, stored: Fields, merged: Fields, d: Fields)
    requires DesiredObject(d, annKey) && Carries(codec, annKey, stored, merged, d)
    requires "metadata" in d ==> (
      "metadata" in merged && merged["metadata"].Map? && HasAnnotations(Meta(merged), Meta(d)))
    ensures MergeMap(Owned(stored), Owned(d), Owned(d)) == Owned(stored) <==>
      MergeMap(Owned(merged), Owned(d), Owned(d)) == Owned(merged)
  {
    hide MergeMap, Merge, Owned, HasAnnotations, StringMap, DesiredObject;
    SettlesByField(Owned(stored), Owned(d));
    SettlesByField(Owned(merged), Owned(d));
    forall k | k in Owned(d) && k != "metadata"
      ensures Get(Owned(stored), k) == Get(Owned(merged), k) && (k in Owned(stored) <==> k in Owned(merged))
    {
      StoredFieldsAlike(codec, annKey, stored, merged, d, k);
    }
    OwnedFields(d);
    if "metadata" in d {
      OwnedFields(stored);
      OwnedFields(merged);
      MetadataSettlesAlike(codec, annKey, stored, merged, d);
    }
  }

  lemma StoredFieldsAlike(codec: Codec, annKey: string, stored: Fields, merged: Fields, d: Fields, k: string)
    requires Carries(codec, annKey, stored, merged, d) && k in Owned(d) && k != "metadata"
    ensures Get(Owned(stored), k) == Get(Owned(merged), k) && (k in Owned(stored) <==> k in Owned(merged))
  {
    OwnedFields(stored);
    OwnedFields(merged);
    OwnedFields(d);
  }

  lemma MetadataSettlesAlike(codec: Codec, annKey: string, stored: Fields, merged: Fields, d: Fields)
    requires DesiredObject(d, annKey) && Carries(codec, annKey, stored, merged, d) && "metadata" in d
    requires "metadata" in merged && merged["metadata"].Map? && HasAnnotations(Meta(merged), Meta(d))
    ensures var a, b, dm := Owned(stored)["metadata"], Owned(merged)["metadata"], Owned(d)["metadata"];
      Merge(a, dm, dm) == a <==> Merge(b, dm, dm) == b
  {
    hide Merge, MergeMap;
    AnnotationsAreOwned();
    var a, b, dm := Meta(stored) - SystemFields(), Meta(merged) - SystemFields(), Meta(d) - SystemFields();
    MergeOfMap(Map(a), Map(dm), Map(dm));
    MergeOfMap(Map(b), Map(dm), Map(dm));
    assert HasAnnotations(a, dm);
    assert HasAnnotations(b, dm);
    assert SameExcept(a, b, {"annotations"});
    MetaSettlesAlike(a, b, dm);
  }

  // ---- the second reconcile

  /** Putting the system fields and the status of an object back restores it exactly if the rest is as it was. */
  lemma PuttingBackRestores(r: Fields, again: Fields, obj: Fields)
    requires PutBack(r, again, obj)
    requires "metadata" in again && again["metadata"].Map? && "metadata" in obj && obj["metadata"].Map?
    ensures r == obj <==> Owned(again) == Owned(obj)
  {
    RestoredMeta(Meta(again), Meta(obj));
    OwnedFields(again);
    OwnedFields(obj);
    if Owned(again) == Owned(obj) {
      forall k | k != "metadata" ensures (k in r <==> k in obj) && Get(r, k) == Get(obj, k) {
        assert k != "status" ==> Get(Owned(again), k) == Get(Owned(obj), k) && (k in again <==> k in Owned(again));
      }
      assert Meta(again) - SystemFields() == Meta(obj) - SystemFields();
      assert r["metadata"] == obj["metadata"];
      forall k ensures (k in r <==> k in obj) && Get(r, k) == Get(obj, k) {
      }
    }
    if r == obj {
      forall k ensures (k in Owned(again) <==> k in Owned(obj)) && Get(Owned(again), k) == Get(Owned(obj), k) {
        assert k !in {"metadata", "status"} ==> (k in r <==> k in again) && Get(r, k) == Get(again, k);
      }
    }
  }

  lemma RestoredMeta(again: Fields, meta: Fields)
    ensures Reverted(again, meta, SYSTEM_FIELDS) == meta <==> again - SystemFields() == meta - SystemFields()
  {
    var r := Reverted(again, meta, SYSTEM_FIELDS);
    assert forall k :: k in SYSTEM_FIELDS <==> k in SystemFields();
    if again - SystemFields() == meta - SystemFields() {
      forall k ensures (k in r <==> k in meta) && Get(r, k) == Get(meta, k) {
        assert k !in SystemFields() ==> (k in again - SystemFields() <==> k in again);
        assert k !in SystemFields() ==> Get(again - SystemFields(), k) == Get(again, k);
        assert k !in SystemFields() ==> Get(meta - SystemFields(), k) == Get(meta, k);
      }
    }
    if r == meta {
      forall k ensures (k in again - SystemFields() <==> k in meta - SystemFields())
        && Get(again - SystemFields(), k) == Get(meta - SystemFields(), k) {
        assert k !in SystemFields() ==> (k in r <==> k in again) && Get(r, k) == Get(again, k);
      }
    }
  }

  /** A reconcile of a stored object with the desired state it was last reconciled with finds nothing to do exactly if
      what is left to the controller settles. Then it returns the object as it is. */
  lemma SecondPass(codec: Codec, annKey: string, sanitize: bool, stored: Fields, merged: Fields, d: Fields)
    requires Faithful(codec) && DesiredObject(d, annKey) && Carries(codec, annKey, stored, merged, d)
    requires "metadata" in d ==> (
      "metadata" in merged && merged["metadata"].Map? && HasAnnotations(Meta(merged), Meta(d)))
    ensures var again := ApplyMerge(codec, annKey, sanitize, stored, d);
      && again.Merged?
      && (again.equal <==> MergeMap(Owned(merged), Owned(d), Owned(d)) == Owned(merged))
      && again == Merged(again.obj, again.obj == stored, d)
  {
    var again := MergeMap(stored, d, d);
    DesiredWasLastApplied(codec, annKey, stored, merged, d);
    CarriesIsApi(codec, annKey, stored, merged, d);
    ReconciledFrom(codec, annKey, sanitize, stored, d, d);
    MergedMeta(stored, d, d, annKey);
    PuttingBack(again, stored);
    PuttingBackRestores(RevertStatus(RevertMetaFields(again, stored, SYSTEM_FIELDS).value, stored), again, stored);
    OwnedMerge(stored, d, d, annKey);
    StoredSettlesAlike(codec, annKey, stored, merged, d);
    RevertedIsStored(codec, annKey, stored, merged, d);
    hide ApplyMerge, WithLastApplied, MergeMap, RevertMetaFields, RevertStatus, Owned, Carries, PutBack, DesiredObject;
  }

  /** The second pass finds the desired state in the annotation, so that storing it changes nothing. */
  lemma RevertedIsStored(codec: Codec, annKey: string, stored: Fields, merged: Fields, d: Fields)
    requires DesiredObject(d, annKey) && Carries(codec, annKey, stored, merged, d) && ApiObject(stored)
    ensures var r := RevertMetaFields(MergeMap(stored, d, d), stored, SYSTEM_FIELDS);
      r.Some? && WithLastApplied(codec, RevertStatus(r.value, stored), annKey, d) == RevertStatus(r.value, stored)
  {
    RevertedIsReady(stored, d, d, annKey);
    hide RevertMetaFields, RevertStatus;
    var reverted := RevertStatus(RevertMetaFields(MergeMap(stored, d, d), stored, SYSTEM_FIELDS).value, stored);
    AnnotationStays(codec, annKey, stored, merged, d);
    hide MergeMap, WithLastApplied;
    assert AsMap(Get(Meta(reverted), "annotations")) == AsMap(Get(Meta(MergeMap(stored, d, d)), "annotations"));
    StoredAlready(codec, annKey, reverted, d);
  }

  lemma AnnotationStays(codec: Codec, annKey: string, stored: Fields, merged: Fields, d: Fields)
    requires DesiredObject(d, annKey) && Carries(codec, annKey, stored, merged, d) && ApiObject(stored)
    ensures Get(AsMap(Get(Meta(MergeMap(stored, d, d)), "annotations")), annKey) == Str(codec.encode(d))
  {
    MergedMeta(stored, d, d, annKey);
    if "annotations" in Meta(d) {
      assert "metadata" in d;
      MergedField(Meta(stored), Meta(d), Meta(d), "annotations");
      MergeOfMap(Meta(stored)["annotations"], Meta(d)["annotations"], Meta(d)["annotations"]);
    }
  }

  lemma CarriesIsApi(codec: Codec, annKey: string, stored: Fields, merged: Fields, d: Fields)
    requires Carries(codec, annKey, stored, merged, d)
    ensures ApiObject(stored)
  {
  }

  /** Whether what is left to the controller settles, told from the observed, the last applied and the desired state. */
  ghost predicate OwnedSettles(o: Fields, l: Fields, d: Fields) {
    FieldsSettle(Owned(o), Owned(l), Owned(d))
  }

  ghost predicate OwnedRegular(o: Fields, l: Fields, d: Fields) {
    FieldsRegular(Owned(o), Owned(l), Owned(d))
  }

  lemma MergedIsOwned(o: Fields, l: Fields, d: Fields, annKey: string)
    requires ApiObject(o) && DesiredObject(d, annKey) && OwnedRegular(o, l, d)
    ensures var m := MergeMap(o, l, d);
      && (MergeMap(Owned(m), Owned(d), Owned(d)) == Owned(m) <==> OwnedSettles(o, l, d))
      && ("metadata" in d ==> (
        "metadata" in m && m["metadata"].Map? && HasAnnotations(Meta(m), Meta(d))))
  {
    OwnedMerge(o, l, d, annKey);
    MapMergeSettles(Owned(o), Owned(l), Owned(d));
    MergedMeta(o, l, d, annKey);
    MergedHasAnnotations(o, l, d, annKey);
    hide MergeMap, Owned, FieldsSettle, FieldsRegular;
  }

  lemma MergedHasAnnotations(o: Fields, l: Fields, d: Fields, annKey: string)
    requires ApiObject(o) && DesiredObject(d, annKey)
    ensures HasAnnotations(Meta(MergeMap(o, l, d)), Meta(d))
  {
    MergedMeta(o, l, d, annKey);
    MergedAnnotations(o, l, d, annKey);
    if "annotations" in Meta(d) {
      assert "metadata" in d;
      MergedField(Meta(o), AsMap(Get(l, "metadata")), Meta(d), "annotations");
      var meta, dm := Meta(MergeMap(o, l, d)), Meta(d);
      assert "annotations" in meta && StringMap(meta["annotations"]) && StringMap(dm["annotations"]);
      assert AsMap(Get(dm, "annotations")) == dm["annotations"].fields;
      assert AsMap(Get(meta, "annotations")) == meta["annotations"].fields;
    }
    hide MergeMap, Merge;
  }

  /** After a reconcile, reconciling the stored object again with the same desired state returns it unchanged and
      reports no difference exactly if what is left to the controller settles, whatever the API server made of the
      system fields and the status in between. */
  lemma ReconcileSettles(codec: Codec, annKey: string, sanitize: bool, o: Fields, l: Fields, d: Fields, stored: Fields)
    requires Faithful(codec) && ApiObject(o) && DesiredObject(d, annKey)
    requires LastApplied(codec, o, annKey) == Some(l) && OwnedRegular(o, l, d)
    requires var first := ApplyMerge(codec, annKey, sanitize, o, d); first.Merged? && StoredAs(stored, first.obj)
    ensures var again := ApplyMerge(codec, annKey, sanitize, stored, d);
      && again.Merged?
      && (again.equal <==> OwnedSettles(o, l, d))
      && (again.obj == stored <==> OwnedSettles(o, l, d))
  {
    var sent, merged := ApplyMerge(codec, annKey, sanitize, o, d).obj, MergeMap(o, l, d);
    FirstPass(codec, annKey, sanitize, o, l, d);
    StoredCarries(codec, annKey, stored, sent, merged, d);
    MergedIsOwned(o, l, d, annKey);
    SecondPass(codec, annKey, sanitize, stored, merged, d);
    hide ApplyMerge, MergeMap, Owned, OwnedSettles, OwnedRegular, Carries, HasAnnotations;
  }
}

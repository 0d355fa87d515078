/** One reconcile of an object: the merge against the last applied state kept in an annotation, with
    the system fields and the status put back. */
module Reconcile {
  import opened Basics
  import opened Json
  import opened MergeKey
  import opened ThreeWayMerge
  import MergeLoops
  import opened MergeFixpoint

  /** Writing JSON text and reading it back. Reading fails on text that is not an object. */
  datatype Codec = Codec(encode: Fields -> string, decode: string -> Option<Fields>)

  /** A tree that reading JSON can produce. */
  ghost predicate FromJson(v: Value) {
    match v
    case NilList => false
    case List(items) => forall x | x in items :: FromJson(x)
    case Map(fields) => forall k | k in fields :: FromJson(fields[k])
    case _ => true
  }

  ghost predicate Faithful(codec: Codec) {
    forall m: Fields | FromJson(Map(m)) :: codec.encode(m) != "" && codec.decode(codec.encode(m)) == Some(m)
  }

  // ---- nested fields and annotations

  function Meta(obj: Fields): Fields {
    AsMap(Get(obj, "metadata"))
  }

  datatype Nested = Missing | Found(value: Value) | NotAMap

  function ReadMeta(obj: Fields, field: string): Nested {
    match Get(obj, "metadata")
    case Null => Missing
    case Map(meta) => if field in meta then Found(meta[field]) else Missing
    case _ => NotAMap
  }

  /** Creates the metadata if it is missing; fails if it is not a map. */
  function WriteMeta(obj: Fields, field: string, value: Value): Option<Fields> {
    if "metadata" !in obj || obj["metadata"].Map? then Some(obj["metadata" := Map(Meta(obj)[field := value])])
    else None
  }

  function RemoveMeta(obj: Fields, field: string): Fields {
    if Get(obj, "metadata").Map? then obj["metadata" := Map(Meta(obj) - {field})] else obj
  }

  predicate AllStrings(fields: Fields) {
    forall k | k in fields :: fields[k].Str?
  }

  /** Annotations with a value that is not a string are not read at all. */
  function Annotations(obj: Fields): map<string, string> {
    var fields := AsMap(Get(Meta(obj), "annotations"));
    if AllStrings(fields) then map k | k in fields :: fields[k].s else map[]
  }

  function Strings(annotations: map<string, string>): Value {
    Map(map k | k in annotations :: Str(annotations[k]))
  }

  /** A failure to set annotations goes unnoticed. */
  function WithAnnotations(obj: Fields, annotations: map<string, string>): Fields {
    match WriteMeta(obj, "annotations", Strings(annotations))
    case Some(r) => r
    case None => obj
  }

  // ---- the last applied state

  function LastApplied(codec: Codec, obj: Fields, annKey: string): Option<Fields> {
    var annotations := Annotations(obj);
    if annKey !in annotations || annotations[annKey] == "" then Some(map[])
    else codec.decode(annotations[annKey])
  }

  function WithLastApplied(codec: Codec, obj: Fields, annKey: string, applied: Fields): Fields {
    if applied == map[] then obj
    else WithAnnotations(obj, Annotations(obj)[annKey := codec.encode(applied)])
  }

  function Sanitized(applied: Fields, annKey: string): Fields {
    if Get(Meta(applied), "annotations").Map? then
      applied["metadata" := Map(Meta(applied)["annotations" := Map(Meta(applied)["annotations"].fields - {annKey})])]
    else applied
  }

  // ---- putting fields back

  const SYSTEM_FIELDS :=
    ["selfLink", "uid", "resourceVersion", "generation", "creationTimestamp", "deletionTimestamp"]

  function RevertMetaField(merged: Fields, orig: Fields, field: string): Option<Fields> {
    match ReadMeta(orig, field)
    case Found(value) => WriteMeta(merged, field, value)
    case Missing => Some(RemoveMeta(merged, field))
    case NotAMap => None
  }

  function RevertMetaFields(merged: Fields, orig: Fields, names: seq<string>): Option<Fields>
    decreases |names|
  {
    if names == [] then Some(merged)
    else
      match RevertMetaField(merged, orig, names[0])
      case Some(r) => RevertMetaFields(r, orig, names[1..])
      case None => None
  }

  function RevertStatus(merged: Fields, orig: Fields): Fields {
    if "status" in orig then merged["status" := orig["status"]] else merged - {"status"}
  }

  // ---- the reconcile

  datatype Outcome = Failed | Merged(obj: Fields, equal: bool, applied: Fields)

  function ApplyMerge(codec: Codec, annKey: string, sanitize: bool, observed: Fields, desired: Fields): Outcome {
    match LastApplied(codec, observed, annKey)
    case None => Failed
    case Some(last) =>
      match RevertMetaFields(MergeMap(observed, last, desired), observed, SYSTEM_FIELDS)
      case None => Failed
      case Some(reverted) =>
        var merged := RevertStatus(reverted, observed);
        var applied := if sanitize then Sanitized(desired, annKey) else desired;
        Merged(WithLastApplied(codec, merged, annKey, applied), merged == observed, applied)
  }

  class Apply {
    const codec: Codec
    const annKey: string
    const sanitize: bool
    var isRun: bool
    var isEqual: bool

    constructor (codec: Codec, annKey: string, sanitize: bool)
      ensures this.codec == codec && this.annKey == annKey && this.sanitize == sanitize && !isRun
    {
      this.codec, this.annKey, this.sanitize := codec, annKey, sanitize;
      isRun, isEqual := false, false;
    }

    method Merge(observed: Fields, desired: Fields) returns (outcome: Outcome)
      modifies this
      ensures outcome == ApplyMerge(codec, annKey, sanitize, observed, desired)
      ensures outcome.Failed? ==> isRun == old(isRun) && isEqual == old(isEqual)
      ensures outcome.Merged? ==> isRun && isEqual == outcome.equal
    {
      var last := LastApplied(codec, observed, annKey);
      if last.None? {
        return Failed;
      }
      var merged := MergeLoops.MergeMap(observed, last.value, desired);
      ghost var start := merged;
      for i := 0 to |SYSTEM_FIELDS|
        invariant RevertMetaFields(start, observed, SYSTEM_FIELDS)
          == RevertMetaFields(merged, observed, SYSTEM_FIELDS[i..])
      {
        var reverted := RevertMetaField(merged, observed, SYSTEM_FIELDS[i]);
        assert SYSTEM_FIELDS[i..][0] == SYSTEM_FIELDS[i] && SYSTEM_FIELDS[i..][1..] == SYSTEM_FIELDS[i + 1..];
        if reverted.None? {
          return Failed;
        }
        merged := reverted.value;
      }
      merged := RevertStatus(merged, observed);
      isRun, isEqual := true, merged == observed;
      var applied := if sanitize then Sanitized(desired, annKey) else desired;
      outcome := Merged(WithLastApplied(codec, merged, annKey, applied), isEqual, applied);
    }

    method HasMergeDiff() returns (diff: Option<bool>)
      ensures diff == if isRun then Some(!isEqual) else None
    {
      diff := if isRun then Some(!isEqual) else None;
    }
  }
}

/**
 `pkg/apply/merge.go`: keeping the fields that the server owns when a desired object is written over
 a current one.
*/
module Merge {
  import opened Prelude
  import opened Unstructured

  const REVISION := "deployment.kubernetes.io/revision"

  // ----- the merge as a function -----

  predicate IsDeployment(c: Fields) { IsKind(c, "apps", "Deployment") }
  predicate IsService(c: Fields) { IsKind(c, "", "Service") }
  predicate IsServiceAccount(c: Fields) { IsKind(c, "", "ServiceAccount") }

  /** The current revision wins over the desired one. */
  function KeepRevision(current: map<string, string>, desired: map<string, string>): map<string, string> {
    if REVISION in current then desired[REVISION := current[REVISION]] else desired
  }

  function MergedDeployment(current: Fields, d: Fields): Fields {
    if IsDeployment(d) then
      PutMeta(d, ANNOTATIONS, Some(FromStrings(KeepRevision(Strings(current, ANNOTATIONS), Strings(d, ANNOTATIONS)))))
    else d
  }

  function MergedService(current: Fields, d: Fields): (Fields, bool) {
    if IsService(d) then
      match NestedString(current, "spec", "clusterIP")
      case Missing => (d, false)
      case Malformed => (d, true)
      case Value(ip) => WithNested(d, "spec", "clusterIP", Str(ip))
    else (d, false)
  }

  /** The desired object with the current list under that key, if there is one. */
  function WithCurrentList(current: Fields, d: Fields, key: string): Fields {
    match TopSlice(current, key)
    case Value(items) => d[key := List(items)]
    case _ => d
  }

  function MergedServiceAccount(current: Fields, d: Fields): (Fields, bool) {
    if !IsServiceAccount(d) then (d, false)
    else if TopSlice(current, "secrets").Malformed? then (d, true)
    else
      var d1 := WithCurrentList(current, d, "secrets");
      if TopSlice(current, "imagePullSecrets").Malformed? then (d1, true)
      else (WithCurrentList(current, d1, "imagePullSecrets"), false)
  }

  function WithServerFields(current: Fields, d: Fields): Fields {
    var d1 := PutMeta(d, "creationTimestamp", TextField(MetaText(current, "creationTimestamp")));
    var d2 := PutMeta(d1, "selfLink", TextField(MetaText(current, "selfLink")));
    var d3 := PutMeta(d2, "generation", NumberField(Generation(current)));
    var d4 := PutMeta(d3, "uid", TextField(MetaText(current, "uid")));
    PutMeta(d4, "resourceVersion", TextField(MetaText(current, "resourceVersion")))
  }

  /** All current entries, the desired ones winning. */
  function WithStrings(current: Fields, d: Fields, key: string): Fields {
    PutMeta(d, key, Some(FromStrings(Strings(current, key) + Strings(d, key))))
  }

  function MergedMetadata(current: Fields, d: Fields): Fields {
    WithStrings(current, WithStrings(current, WithServerFields(current, d), ANNOTATIONS), LABELS)
  }

  /** `MergeObjectForUpdate`: the updated object afterwards, and whether it fails. */
  function Merged(current: Fields, d: Fields): (Fields, bool) {
    var (d1, serviceErr) := MergedService(current, MergedDeployment(current, d));
    if serviceErr then (d1, true)
    else
      var (d2, accountErr) := MergedServiceAccount(current, d1);
      if accountErr then (d2, true) else (MergedMetadata(current, d2), false)
  }

  /** `IsObjectSupported`: no secrets in a service account. */
  predicate Supported(d: Fields) {
    IsServiceAccount(d) ==> TopSlice(d, "secrets").Missing? || TopSlice(d, "secrets") == Value([])
  }

  // ----- the code -----

  /** The loop of `mergeAnnotations` and `mergeLabels`. */
  method MergeStrings(current: map<string, string>, updated: map<string, string>) returns (merged: map<string, string>)
    ensures merged == current + updated
  {
    merged := current;
    var left := updated.Keys;
    while left != {}
      invariant left <= updated.Keys
      invariant merged == current + map k | k in updated && k !in left :: updated[k]
      decreases left
    {
      var k :| k in left;
      left := left - {k};
      merged := merged[k := updated[k]];
    }
    assert (map k | k in updated && k !in left :: updated[k]) == updated;
  }

  method MergeDeploymentForUpdate(current: Unstructured, updated: Unstructured)
    requires current != updated
    modifies updated
    ensures updated.content == MergedDeployment(current.content, old(updated.content))
  {
    hide Strings, PutMeta, FromStrings;
    if IsKind(updated.content, "apps", "Deployment") {
      var curAnnotations := Strings(current.content, ANNOTATIONS);
      var updatedAnnotations := Strings(updated.content, ANNOTATIONS);
      if REVISION in curAnnotations {
        updatedAnnotations := updatedAnnotations[REVISION := curAnnotations[REVISION]];
      }
      updated.SetStrings(ANNOTATIONS, updatedAnnotations);
    }
  }

  method MergeServiceForUpdate(current: Unstructured, updated: Unstructured) returns (err: bool)
    requires current != updated
    modifies updated
    ensures (updated.content, err) == MergedService(current.content, old(updated.content))
  {
    hide NestedString, WithNested;
    if IsKind(updated.content, "", "Service") {
      var clusterIP := NestedString(current.content, "spec", "clusterIP");
      if clusterIP.Malformed? {
        return true;
      }
      if clusterIP.Value? {
        err := updated.SetNestedField(Str(clusterIP.value), "spec", "clusterIP");
        return err;
      }
    }
    return false;
  }

  method MergeServiceAccountForUpdate(current: Unstructured, updated: Unstructured) returns (err: bool)
    requires current != updated
    modifies updated
    ensures (updated.content, err) == MergedServiceAccount(current.content, old(updated.content))
  {
    if IsKind(updated.content, "", "ServiceAccount") {
      var curSecrets := TopSlice(current.content, "secrets");
      if curSecrets.Malformed? {
        return true;
      }
      if curSecrets.Value? {
        updated.content := updated.content["secrets" := List(curSecrets.value)];
      }
      var curImagePullSecrets := TopSlice(current.content, "imagePullSecrets");
      if curImagePullSecrets.Malformed? {
        return true;
      }
      if curImagePullSecrets.Value? {
        updated.content := updated.content["imagePullSecrets" := List(curImagePullSecrets.value)];
      }
    }
    return false;
  }

  method MergeMetadataForUpdate(current: Unstructured, updated: Unstructured)
    requires current != updated
    modifies updated
    ensures updated.content == MergedMetadata(current.content, old(updated.content))
  {
    hide PutMeta, MetaText, Generation, Strings, FromStrings, TextField, NumberField;
    updated.SetMetaText("creationTimestamp", MetaText(current.content, "creationTimestamp"));
    updated.SetMetaText("selfLink", MetaText(current.content, "selfLink"));
    updated.SetGeneration(Generation(current.content));
    updated.SetMetaText("uid", MetaText(current.content, "uid"));
    updated.SetMetaText("resourceVersion", MetaText(current.content, "resourceVersion"));
    assert updated.content == WithServerFields(current.content, old(updated.content));
    var annotations := MergeStrings(Strings(current.content, ANNOTATIONS), Strings(updated.content, ANNOTATIONS));
    updated.SetStrings(ANNOTATIONS, annotations);
    var labels := MergeStrings(Strings(current.content, LABELS), Strings(updated.content, LABELS));
    updated.SetStrings(LABELS, labels);
  }

  /** `MergeObjectForUpdate`. Only the updated object changes. */
  method MergeObjectForUpdate(current: Unstructured, updated: Unstructured) returns (err: bool)
    requires current != updated
    modifies updated
    ensures (updated.content, err) == Merged(current.content, old(updated.content))
  {
    hide MergedDeployment, MergedService, MergedServiceAccount, MergedMetadata;
    MergeDeploymentForUpdate(current, updated);
    err := MergeServiceForUpdate(current, updated);
    if err {
      return true;
    }
    err := MergeServiceAccountForUpdate(current, updated);
    if err {
      return true;
    }
    MergeMetadataForUpdate(current, updated);
    return false;
  }

  /** `IsObjectSupported`. */
  method IsObjectSupported(d: Fields) returns (err: bool)
    ensures err <==> !Supported(d)
  {
    if IsKind(d, "", "ServiceAccount") {
      var secrets := TopSlice(d, "secrets");
      if secrets.Malformed? {
        return true;
      }
      if secrets.Value? && |secrets.value| > 0 {
        return true;
      }
    }
    return false;
  }
}

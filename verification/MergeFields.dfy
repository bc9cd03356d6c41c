/** The merge of `pkg/apply/merge.go` on objects given by their JSON fields. */
module MergeFields {
  import opened Prelude
  import opened Unstructured
  import opened Merge
  import opened MergeLaws
  import Text

  // ----- which object it is -----

  /** `group/version` in front of a kind. */
  lemma GroupedKind(c: Fields, group: string, version: string)
    requires TopString(c, "apiVersion") == group + "/" + version && '/' !in group && '/' !in version
    ensures KindOf(c) == GroupVersionKind(group, version, TopString(c, "kind"))
  {
    var a := group + "/" + version;
    Text.IndexOfIs(a, '/', |group|);
    Text.IndexOfSpec(version, '/');
    assert a[..|group|] == group && a[|group| + 1..] == version;
  }

  /** A version alone is one of the core group. */
  lemma CoreKind(c: Fields)
    requires '/' !in TopString(c, "apiVersion")
    ensures KindOf(c) == GroupVersionKind("", TopString(c, "apiVersion"), TopString(c, "kind"))
  {
    Text.IndexOfSpec(TopString(c, "apiVersion"), '/');
  }

  /** With two slashes there is no kind at all. */
  lemma NoKind(c: Fields, group: string, version: string, rest: string)
    requires TopString(c, "apiVersion") == group + "/" + version + "/" + rest
    ensures KindOf(c) == GroupVersionKind("", "", "")
  {
    var a := group + "/" + version + "/" + rest;
    var slash := Text.IndexOf(a, '/');
    Text.IndexOfSpec(a, '/');
    var second := |group| + 1 + |version|;
    assert a[|group|] == '/' && a[second] == '/';
    assert slash <= |group|;
    var tail := a[slash + 1..];
    assert tail[second - slash - 1] == '/';
    Text.IndexOfSpec(tail, '/');
  }

  predicate Declared(c: Fields, apiVersion: string, kind: string) {
    "apiVersion" in c && c["apiVersion"] == Str(apiVersion) && "kind" in c && c["kind"] == Str(kind)
  }

  lemma DeclaredKinds(c: Fields)
    ensures Declared(c, "apps/v1", "Deployment") ==> IsDeployment(c)
    ensures Declared(c, "v1", "Service") ==> IsService(c)
    ensures Declared(c, "v1", "ServiceAccount") ==> IsServiceAccount(c)
  {
    if Declared(c, "apps/v1", "Deployment") {
      assert '/' !in "apps" && '/' !in "v1" && "apps/v1" == "apps" + "/" + "v1";
      GroupedKind(c, "apps", "v1");
    }
    if Declared(c, "v1", "Service") || Declared(c, "v1", "ServiceAccount") {
      assert '/' !in "v1";
      CoreKind(c);
    }
  }

  // ----- reading the metadata -----

  function TextIn(m: Fields, key: string): string {
    if key in m && m[key].Str? then m[key].s else ""
  }

  function NumberIn(m: Fields, key: string): Int64 {
    if key in m && m[key].Number? then m[key].n else 0
  }

  /** The texts of an object of texts; one value of another kind spoils all of them. */
  ghost predicate TextsIn(m: Fields, key: string, texts: map<string, string>) {
    if key in m && m[key].Object? && forall k :: k in m[key].fields ==> m[key].fields[k].Str? then
      texts.Keys == m[key].fields.Keys && forall k :: k in texts ==> m[key].fields[k] == Str(texts[k])
    else texts == map[]
  }

  predicate HasMeta(c: Fields, m: Fields) {
    "metadata" in c && c["metadata"] == Object(m)
  }

  /** What the accessors read, if the metadata is an object; otherwise they read nothing. */
  lemma AccessorsRead(c: Fields, m: Fields, key: string)
    requires HasMeta(c, m) || ("metadata" in c && !c["metadata"].Object? && m == map[])
            || ("metadata" !in c && m == map[])
    ensures MetaText(c, key) == TextIn(m, key) && TextsIn(m, key, Strings(c, key))
    ensures Generation(c) == NumberIn(m, "generation")
  {
  }

  // ----- what a merge leaves in the fields -----

  /**
   The merged object has metadata in which UID, creation time, self link, version and generation
   are those of the current object, and name and namespace those of the desired one.
   */
  lemma MergedIdentity(current: Fields, d: Fields, m: Fields, n: Fields) returns (r: Fields)
    requires HasMeta(current, m) && HasMeta(d, n) && !Merged(current, d).1
    ensures HasMeta(Merged(current, d).0, r)
    ensures TextIn(r, "uid") == TextIn(m, "uid") && TextIn(r, "creationTimestamp") == TextIn(m, "creationTimestamp")
    ensures TextIn(r, "selfLink") == TextIn(m, "selfLink")
    ensures TextIn(r, "resourceVersion") == TextIn(m, "resourceVersion")
    ensures NumberIn(r, "generation") == NumberIn(m, "generation")
    ensures TextIn(r, "name") == TextIn(n, "name") && TextIn(r, "namespace") == TextIn(n, "namespace")
  {
    var merged := Merged(current, d).0;
    MergedIsObject(current, d, n);
    r := merged["metadata"].fields;
    AllRead(current, m);
    AllRead(d, n);
    AllRead(merged, r);
    hide Merged, KindOf, Strings, WantedAnnotations, KeepsAssigned, Generation, MetaText, TextIn, NumberIn, AllReadIn;
    MergeMeaning(current, d);
    assert AllReadIn(current, m) && AllReadIn(d, n) && AllReadIn(merged, r);
    SevenReads(current, d, merged, m, n, r);
  }

  ghost predicate AllReadIn(c: Fields, m: Fields) {
    && (forall key :: MetaText(c, key) == TextIn(m, key))
    && Generation(c) == NumberIn(m, "generation")
  }

  lemma AllRead(c: Fields, m: Fields)
    requires HasMeta(c, m)
    ensures AllReadIn(c, m)
  {
    forall key ensures MetaText(c, key) == TextIn(m, key) {
      AccessorsRead(c, m, key);
    }
    AccessorsRead(c, m, "");
  }

  lemma SevenReads(current: Fields, d: Fields, merged: Fields, m: Fields, n: Fields, r: Fields)
    requires AllReadIn(current, m) && AllReadIn(d, n) && AllReadIn(merged, r) && SameServerFields(merged, current)
    requires MetaText(merged, "name") == MetaText(d, "name")
            && MetaText(merged, "namespace") == MetaText(d, "namespace")
    ensures TextIn(r, "uid") == TextIn(m, "uid") && TextIn(r, "creationTimestamp") == TextIn(m, "creationTimestamp")
    ensures TextIn(r, "selfLink") == TextIn(m, "selfLink")
    ensures TextIn(r, "resourceVersion") == TextIn(m, "resourceVersion")
    ensures NumberIn(r, "generation") == NumberIn(m, "generation")
    ensures TextIn(r, "name") == TextIn(n, "name") && TextIn(r, "namespace") == TextIn(n, "namespace")
  {
    hide MetaText, TextIn, Generation, NumberIn;
  }

  /** All other fields of the metadata are the desired ones. */
  lemma OtherMetadataIsDesired(current: Fields, d: Fields, n: Fields, key: string)
    requires HasMeta(d, n) && !Merged(current, d).1
    requires key !in {"uid", "creationTimestamp", "selfLink", "resourceVersion", "generation", "annotations", "labels"}
    ensures var m := Merged(current, d).0;
            && "metadata" in m && m["metadata"].Object?
            && (key in m["metadata"].fields <==> key in n) && (key in n ==> m["metadata"].fields[key] == n[key])
  {
    hide Merged, IsService, IsServiceAccount, Nested, KindOf;
    MergedIsObject(current, d, n);
    MergeFrame(current, d, key);
    SameField(Merged(current, d).0, d, key);
  }

  lemma SameField(c: Fields, d: Fields, key: string)
    requires "metadata" in c && c["metadata"].Object? && "metadata" in d && d["metadata"].Object? && SameMeta(c, d, key)
    ensures var m, n := c["metadata"].fields, d["metadata"].fields;
            (key in m <==> key in n) && (key in n ==> m[key] == n[key])
  {
  }

  /** Annotations and labels are there afterwards, as objects of texts, even if they are empty. */
  lemma MergedMapsAreWritten(current: Fields, d: Fields, n: Fields)
    requires HasMeta(d, n) && !Merged(current, d).1
    ensures var m := Merged(current, d).0;
            && IsTexts(Nested(m, "metadata", "annotations")) && IsTexts(Nested(m, "metadata", "labels"))
  {
    hide Merged, KindOf, IsService, IsServiceAccount, IsDeployment, MergedMetadata, MergedDeployment, MergedService,
      MergedServiceAccount, IsTexts, Nested;
    MergedByKind(current, d);
    KindsAreDisjoint(d);
    if IsService(d) {
      ServiceKeepsIdentity(current, d);
      MapsWritten(current, MergedService(current, d).0);
    } else if IsServiceAccount(d) {
      ServiceAccountKeepsIdentity(current, d);
      MapsWritten(current, MergedServiceAccount(current, d).0);
    } else {
      DeploymentStaysObject(current, d);
      MapsWritten(current, MergedDeployment(current, d));
    }
  }

  predicate IsTexts(v: Lookup<Json>) {
    v.Value? && v.value.Object? && forall k :: k in v.value.fields ==> v.value.fields[k].Str?
  }

  lemma MapsWritten(current: Fields, d: Fields)
    requires "metadata" in d && d["metadata"].Object?
    ensures var m := MergedMetadata(current, d);
            && IsTexts(Nested(m, "metadata", "annotations")) && IsTexts(Nested(m, "metadata", "labels"))
  {
    var d1 := WithServerFields(current, d);
    ServerFieldsStayObject(current, d);
    hide WithServerFields;
    TextsWritten(current, d1, "annotations");
    var d2 := WithStrings(current, d1, "annotations");
    TextsWritten(current, d2, "labels");
    StringsSpare(current, d2, "labels", "annotations");
  }

  lemma ServerFieldsStayObject(current: Fields, d: Fields)
    requires "metadata" in d && d["metadata"].Object?
    ensures "metadata" in WithServerFields(current, d) && WithServerFields(current, d)["metadata"].Object?
  {
    forall c: Fields, key, v | "metadata" in c && c["metadata"].Object?
      ensures "metadata" in PutMeta(c, key, v) && PutMeta(c, key, v)["metadata"].Object?
    {
      PutStaysObject(c, key, v);
    }
    hide PutMeta, Strings, MetaText, Generation, TextField, NumberField, FromStrings;
  }

  lemma TextsWritten(current: Fields, d: Fields, key: string)
    requires "metadata" in d && d["metadata"].Object?
    ensures var m := WithStrings(current, d, key);
            "metadata" in m && m["metadata"].Object? && IsTexts(Nested(m, "metadata", key))
  {
    hide Strings;
  }

  lemma MergedIsObject(current: Fields, d: Fields, n: Fields)
    requires HasMeta(d, n) && !Merged(current, d).1
    ensures "metadata" in Merged(current, d).0 && Merged(current, d).0["metadata"].Object?
  {
    hide Merged;
    MergedMapsAreWritten(current, d, n);
  }

  lemma DeploymentStaysObject(current: Fields, d: Fields)
    requires "metadata" in d && d["metadata"].Object?
    ensures "metadata" in MergedDeployment(current, d) && MergedDeployment(current, d)["metadata"].Object?
  {
  }

  lemma PutStaysObject(d: Fields, key: string, v: Option<Json>)
    requires "metadata" in d && d["metadata"].Object?
    ensures "metadata" in PutMeta(d, key, v) && PutMeta(d, key, v)["metadata"].Object?
  {
  }

  /** A deployment keeps the revision that the current object is annotated with. */
  lemma DeploymentKeepsRevision(current: Fields, d: Fields, n: Fields)
    requires Declared(d, "apps/v1", "Deployment") && HasMeta(d, n)
    requires "deployment.kubernetes.io/revision" in Strings(current, "annotations")
    ensures var m := Merged(current, d).0;
            && !Merged(current, d).1
            && "deployment.kubernetes.io/revision" in Strings(m, "annotations")
            && Strings(m, "annotations")["deployment.kubernetes.io/revision"]
               == Strings(current, "annotations")["deployment.kubernetes.io/revision"]
  {
    DeclaredKinds(d);
    KindsAreDisjoint(d);
    hide Merged, KindOf, Strings, KeepsAssigned, IsService, IsServiceAccount;
    MergedByKind(current, d);
    MergeMeaning(current, d);
  }

  /** Any other annotation or label that the desired object carries wins, and no current one is lost. */
  lemma DesiredTextsWin(current: Fields, d: Fields, n: Fields, key: string)
    requires HasMeta(d, n) && !Merged(current, d).1
    ensures var m := Merged(current, d).0;
            && (key in Strings(d, "labels") ==>
                  key in Strings(m, "labels") && Strings(m, "labels")[key] == Strings(d, "labels")[key])
            && (key in Strings(d, "annotations")
                && (key != "deployment.kubernetes.io/revision" || Declared(d, "v1", "Service")) ==>
                  key in Strings(m, "annotations") && Strings(m, "annotations")[key] == Strings(d, "annotations")[key])
            && (key in Strings(current, "labels") ==> key in Strings(m, "labels"))
            && (key in Strings(current, "annotations") ==> key in Strings(m, "annotations"))
  {
    DeclaredKinds(d);
    KindsAreDisjoint(d);
    hide Merged, KindOf, Strings, KeepsAssigned;
    MergeMeaning(current, d);
  }

  /** A service keeps the address that the current object was given. */
  lemma ServiceKeepsAddress(current: Fields, d: Fields, spec: Fields, ip: string)
    requires Declared(d, "v1", "Service") && ("spec" in d ==> d["spec"].Object?)
    requires "spec" in current && current["spec"] == Object(spec) && "clusterIP" in spec && spec["clusterIP"] == Str(ip)
    ensures !Merged(current, d).1
    ensures NestedString(Merged(current, d).0, "spec", "clusterIP") == Value(ip)
  {
    DeclaredKinds(d);
    KindsAreDisjoint(d);
    assert NestedString(current, "spec", "clusterIP") == Value(ip);
    hide Merged, KindOf, IsService, IsServiceAccount, Strings, NestedString, WantedAnnotations;
    MergeFailsIff(current, d);
    MergeMeaning(current, d);
  }

  /** A service account keeps the two lists of the current one. */
  lemma AccountKeepsLists(current: Fields, d: Fields, secrets: seq<Json>, pullSecrets: seq<Json>)
    requires Declared(d, "v1", "ServiceAccount")
    requires "secrets" in current && current["secrets"] == List(secrets)
    requires "imagePullSecrets" in current && current["imagePullSecrets"] == List(pullSecrets)
    ensures var (m, failed) := Merged(current, d);
            && !failed && "secrets" in m && m["secrets"] == List(secrets)
            && "imagePullSecrets" in m && m["imagePullSecrets"] == List(pullSecrets)
  {
    DeclaredKinds(d);
    KindsAreDisjoint(d);
    hide Merged, KindOf, IsService, IsServiceAccount, Strings, NestedString, WantedAnnotations;
    MergeFailsIff(current, d);
    MergeMeaning(current, d);
  }

  /** The field is there, and is not null. */
  predicate Present(c: Fields, key: string) {
    key in c && c[key] != Null
  }

  /** When the merge of a service fails. A missing or null specification has no address. */
  lemma ServiceFailsIff(current: Fields, d: Fields)
    requires Declared(d, "v1", "Service")
    ensures Merged(current, d).1 <==>
              Present(current, "spec")
              && if !current["spec"].Object? then true
                 else
                   var spec := current["spec"].fields;
                   "clusterIP" in spec && (!spec["clusterIP"].Str? || ("spec" in d && !d["spec"].Object?))
  {
    DeclaredKinds(d);
    KindsAreDisjoint(d);
    hide Merged, KindOf, IsService, IsServiceAccount;
    MergeFailsIff(current, d);
  }

  /** When the merge of a service account fails; any other object is merged without an error. */
  lemma AccountFailsIff(current: Fields, d: Fields)
    ensures Declared(d, "v1", "ServiceAccount") ==>
              (Merged(current, d).1 <==> || ("secrets" in current && !current["secrets"].List?)
                                         || ("imagePullSecrets" in current && !current["imagePullSecrets"].List?))
    ensures TopString(d, "kind") != "ServiceAccount" && TopString(d, "kind") != "Service" ==> !Merged(current, d).1
  {
    DeclaredKinds(d);
    KindsAreDisjoint(d);
    OtherKinds(d);
    hide Merged, KindOf, IsService, IsServiceAccount;
    MergeFailsIff(current, d);
  }

  lemma OtherKinds(d: Fields)
    ensures TopString(d, "kind") != "ServiceAccount" && TopString(d, "kind") != "Service" ==>
              !IsService(d) && !IsServiceAccount(d)
  {
  }

  /** Only a service account that lists secrets, or has something else in their place, is refused. */
  lemma SupportedObjects(d: Fields, group: string, version: string)
    ensures Declared(d, "v1", "ServiceAccount") ==>
              (Supported(d) <==> ("secrets" in d ==> d["secrets"] == List([])))
    ensures TopString(d, "kind") != "ServiceAccount" ==> Supported(d)
    ensures TopString(d, "apiVersion") == group + "/" + version && group != "" && '/' !in group && '/' !in version ==>
              Supported(d)
  {
    DeclaredKinds(d);
    if TopString(d, "apiVersion") == group + "/" + version && '/' !in group && '/' !in version {
      GroupedKind(d, group, version);
    }
  }
}

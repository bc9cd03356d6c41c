/** What a merge preserves, and when merging again changes nothing. */
module MergeLaws {
  import opened Prelude
  import opened Unstructured
  import opened Merge
  import Text

  /** The keys other than the metadata are the same. */
  ghost predicate SameBody(c: Fields, c': Fields) {
    forall k :: k != METADATA ==> (k in c <==> k in c') && (k in c ==> c[k] == c'[k])
  }

  /** `key` reads the same in the metadata. */
  predicate SameMeta(c: Fields, c': Fields, key: string) {
    Nested(c, METADATA, key) == Nested(c', METADATA, key)
  }

  lemma PutMetaFrame(c: Fields, key: string, v: Option<Json>)
    ensures SameBody(c, PutMeta(c, key, v))
    ensures MetaOk(c) ==> MetaOk(PutMeta(c, key, v))
    ensures !MetaOk(c) ==> PutMeta(c, key, v) == c
    ensures MetaOk(c) ==> Nested(PutMeta(c, key, v), METADATA, key) == if v.Some? then Value(v.value) else Missing
  {
  }

  /** Writing one key of the metadata spares the others. */
  lemma PutSpares(c: Fields, key: string, v: Option<Json>, other: string)
    requires other != key
    ensures SameMeta(PutMeta(c, key, v), c, other)
    ensures MetaText(PutMeta(c, key, v), other) == MetaText(c, other)
    ensures other == "generation" ==> Generation(PutMeta(c, key, v)) == Generation(c)
  {
  }

  /** A text that was written is the text that is read. */
  lemma PutText(c: Fields, key: string, s: string)
    requires MetaOk(c)
    ensures MetaText(PutMeta(c, key, TextField(s)), key) == s
  {
  }

  lemma PutGeneration(c: Fields, n: Int64)
    requires MetaOk(c)
    ensures Generation(PutMeta(c, "generation", NumberField(n))) == n
  {
  }

  ghost predicate SameServerFields(c: Fields, c': Fields) {
    && MetaText(c, "uid") == MetaText(c', "uid")
    && MetaText(c, "creationTimestamp") == MetaText(c', "creationTimestamp")
    && MetaText(c, "selfLink") == MetaText(c', "selfLink")
    && MetaText(c, "resourceVersion") == MetaText(c', "resourceVersion")
    && Generation(c) == Generation(c')
  }

  const SERVER_KEYS := {"uid", "creationTimestamp", "selfLink", "resourceVersion", "generation"}

  /** The five steps of `WithServerFields` leave every other key alone. */
  lemma ServerFieldsSpare(current: Fields, d: Fields, key: string)
    requires key !in SERVER_KEYS
    ensures SameMeta(WithServerFields(current, d), d, key)
  {
    hide PutMeta, Nested, TextField, NumberField, MetaText, Generation;
    var created, link := TextField(MetaText(current, "creationTimestamp")), TextField(MetaText(current, "selfLink"));
    var generation, uid := NumberField(Generation(current)), TextField(MetaText(current, "uid"));
    var d1 := PutMeta(d, "creationTimestamp", created);
    var d2 := PutMeta(d1, "selfLink", link);
    var d3 := PutMeta(d2, "generation", generation);
    PutSpares(d, "creationTimestamp", created, key);
    PutSpares(d1, "selfLink", link, key);
    PutSpares(d2, "generation", generation, key);
    PutSpares(d3, "uid", uid, key);
    PutSpares(PutMeta(d3, "uid", uid), "resourceVersion", TextField(MetaText(current, "resourceVersion")), key);
  }

  /** After the five steps, each field reads as it does in the current object. */
  lemma ServerFieldsWritten(current: Fields, d: Fields)
    requires MetaOk(d)
    ensures var m := WithServerFields(current, d);
            SameServerFields(m, current) && SameBody(m, d) && MetaOk(m)
  {
    hide PutMeta, Nested, TextField, NumberField, MetaText, Generation, MetaOk;
    var created, link := MetaText(current, "creationTimestamp"), MetaText(current, "selfLink");
    var generation, uid, version := NumberField(Generation(current)), MetaText(current, "uid"),
        MetaText(current, "resourceVersion");
    var d1 := PutMeta(d, "creationTimestamp", TextField(created));
    var d2 := PutMeta(d1, "selfLink", TextField(link));
    var d3 := PutMeta(d2, "generation", generation);
    var d4 := PutMeta(d3, "uid", TextField(uid));
    PutMetaFrame(d, "creationTimestamp", TextField(created));
    PutMetaFrame(d1, "selfLink", TextField(link));
    PutMetaFrame(d2, "generation", generation);
    PutMetaFrame(d3, "uid", TextField(uid));
    PutMetaFrame(d4, "resourceVersion", TextField(version));
    PutText(d, "creationTimestamp", created);
    PutSpares(d1, "selfLink", TextField(link), "creationTimestamp");
    PutSpares(d2, "generation", generation, "creationTimestamp");
    PutSpares(d3, "uid", TextField(uid), "creationTimestamp");
    PutSpares(d4, "resourceVersion", TextField(version), "creationTimestamp");
    PutText(d1, "selfLink", link);
    PutSpares(d2, "generation", generation, "selfLink");
    PutSpares(d3, "uid", TextField(uid), "selfLink");
    PutSpares(d4, "resourceVersion", TextField(version), "selfLink");
    PutGeneration(d2, Generation(current));
    PutSpares(d3, "uid", TextField(uid), "generation");
    PutSpares(d4, "resourceVersion", TextField(version), "generation");
    PutText(d3, "uid", uid);
    PutSpares(d4, "resourceVersion", TextField(version), "uid");
    PutText(d4, "resourceVersion", version);
  }

  /** Fields that read the same mean the same. */
  lemma SameMetaSameMeaning(c: Fields, c': Fields, key: string)
    requires SameMeta(c, c', key)
    ensures Strings(c, key) == Strings(c', key) && MetaText(c, key) == MetaText(c', key)
    ensures key == "generation" ==> Generation(c) == Generation(c')
  {
  }

  lemma ServerFieldsKeepStrings(current: Fields, d: Fields, key: string)
    requires key !in SERVER_KEYS
    ensures Strings(WithServerFields(current, d), key) == Strings(d, key)
  {
    ServerFieldsSpare(current, d, key);
    SameMetaSameMeaning(WithServerFields(current, d), d, key);
  }

  lemma StringsWritten(current: Fields, d: Fields, key: string)
    requires MetaOk(d)
    ensures var m := WithStrings(current, d, key);
            Strings(m, key) == Strings(current, key) + Strings(d, key) && SameBody(m, d) && MetaOk(m)
  {
    PutMetaFrame(d, key, Some(FromStrings(Strings(current, key) + Strings(d, key))));
    StringsRoundTrip(d, key, Strings(current, key) + Strings(d, key));
  }

  lemma StringsSpare(current: Fields, d: Fields, key: string, other: string)
    requires other != key
    ensures SameMeta(WithStrings(current, d, key), d, other)
    ensures Strings(WithStrings(current, d, key), other) == Strings(d, other)
  {
  }

  lemma StringsKeepServerFields(current: Fields, d: Fields, key: string)
    requires key !in SERVER_KEYS
    ensures SameServerFields(WithStrings(current, d, key), d)
  {
    var v := Some(FromStrings(Strings(current, key) + Strings(d, key)));
    hide PutMeta, Nested, MetaText, Generation, Strings, FromStrings;
    PutSpares(d, key, v, "uid");
    PutSpares(d, key, v, "creationTimestamp");
    PutSpares(d, key, v, "selfLink");
    PutSpares(d, key, v, "resourceVersion");
    PutSpares(d, key, v, "generation");
  }

  /**
   The read-only fields come from the current object, annotations and labels from both, the body from
   the desired one.
  */
  lemma MetadataMeaning(current: Fields, d: Fields)
    requires MetaOk(d)
    ensures var m := MergedMetadata(current, d);
            && SameServerFields(m, current) && SameBody(m, d) && MetaOk(m)
            && Strings(m, ANNOTATIONS) == Strings(current, ANNOTATIONS) + Strings(d, ANNOTATIONS)
            && Strings(m, LABELS) == Strings(current, LABELS) + Strings(d, LABELS)
  {
    hide WithServerFields, Strings, MetaText, Generation, WithStrings, MetaOk;
    var d1 := WithServerFields(current, d);
    ServerFieldsWritten(current, d);
    ServerFieldsKeepStrings(current, d, ANNOTATIONS);
    ServerFieldsKeepStrings(current, d, LABELS);
    var d2 := WithStrings(current, d1, ANNOTATIONS);
    StringsWritten(current, d1, ANNOTATIONS);
    StringsSpare(current, d1, ANNOTATIONS, LABELS);
    StringsKeepServerFields(current, d1, ANNOTATIONS);
    StringsWritten(current, d2, LABELS);
    StringsSpare(current, d2, LABELS, ANNOTATIONS);
    StringsKeepServerFields(current, d2, LABELS);
  }

  /** Any other metadata, such as the name, is the desired object's. */
  lemma MetadataSpares(current: Fields, d: Fields, key: string)
    requires key !in SERVER_KEYS && key != ANNOTATIONS && key != LABELS
    ensures SameMeta(MergedMetadata(current, d), d, key)
  {
    hide WithServerFields, WithStrings, Nested;
    var d1 := WithServerFields(current, d);
    ServerFieldsSpare(current, d, key);
    StringsSpare(current, d1, ANNOTATIONS, key);
    StringsSpare(current, WithStrings(current, d1, ANNOTATIONS), LABELS, key);
  }

  /** Without metadata to write to, the setters do nothing. */
  lemma MetadataUnwritable(current: Fields, d: Fields)
    requires !MetaOk(d)
    ensures MergedMetadata(current, d) == d
  {
  }

  /** Two current objects that agree on what the merge reads give the same merge. */
  lemma SameReadsSameMetadata(c: Fields, c': Fields, d: Fields)
    requires SameServerFields(c, c')
    requires Strings(c, ANNOTATIONS) + Strings(d, ANNOTATIONS) == Strings(c', ANNOTATIONS) + Strings(d, ANNOTATIONS)
    requires Strings(c, LABELS) + Strings(d, LABELS) == Strings(c', LABELS) + Strings(d, LABELS)
    ensures MergedMetadata(c, d) == MergedMetadata(c', d)
  {
    hide Strings, PutMeta, MetaText, Generation, TextField, NumberField, FromStrings;
    var d1 := WithServerFields(c, d);
    assert d1 == WithServerFields(c', d);
    ServerFieldsKeepStrings(c, d, ANNOTATIONS);
    ServerFieldsKeepStrings(c, d, LABELS);
    hide WithServerFields;
    StringsSpare(c, d1, ANNOTATIONS, LABELS);
  }

  lemma AddTwice(a: map<string, string>, b: map<string, string>)
    ensures (a + b) + b == a + b
  {
  }

  /** Merging the metadata again changes nothing. */
  lemma MetadataFixpoint(current: Fields, d: Fields)
    ensures MergedMetadata(MergedMetadata(current, d), d) == MergedMetadata(current, d)
  {
    hide MergedMetadata, Strings, SameServerFields, SameBody;
    if MetaOk(d) {
      MetadataMeaning(current, d);
      AddTwice(Strings(current, ANNOTATIONS), Strings(d, ANNOTATIONS));
      AddTwice(Strings(current, LABELS), Strings(d, LABELS));
      SameReadsSameMetadata(MergedMetadata(current, d), current, d);
    } else {
      MetadataUnwritable(current, d);
      MetadataUnwritable(d, d);
    }
  }

  // ----- the kinds -----

  lemma KindIgnoresMetadata(c: Fields, c': Fields)
    requires SameBody(c, c')
    ensures KindOf(c) == KindOf(c')
  {
    assert "apiVersion" != METADATA && "kind" != METADATA;
    KindFields(c, c');
  }

  lemma BodyReads(c: Fields, c': Fields)
    requires SameBody(c, c')
    ensures NestedString(c, "spec", "clusterIP") == NestedString(c', "spec", "clusterIP")
    ensures TopSlice(c, "secrets") == TopSlice(c', "secrets")
    ensures TopSlice(c, "imagePullSecrets") == TopSlice(c', "imagePullSecrets")
    ensures KindOf(c) == KindOf(c')
  {
    KindIgnoresMetadata(c, c');
    hide KindOf;
    assert "spec" != METADATA && "secrets" != METADATA && "imagePullSecrets" != METADATA;
  }

  lemma MetadataKeepsBody(current: Fields, d: Fields)
    ensures SameBody(MergedMetadata(current, d), d)
  {
    if MetaOk(d) {
      MetadataMeaning(current, d);
    } else {
      MetadataUnwritable(current, d);
    }
  }

  lemma DeploymentKeepsBody(current: Fields, d: Fields)
    ensures SameBody(MergedDeployment(current, d), d)
    ensures MetaOk(d) ==> MetaOk(MergedDeployment(current, d))
    ensures KindOf(MergedDeployment(current, d)) == KindOf(d)
  {
    PutMetaFrame(d, ANNOTATIONS, Some(FromStrings(KeepRevision(Strings(current, ANNOTATIONS),
        Strings(d, ANNOTATIONS)))));
    KindIgnoresMetadata(MergedDeployment(current, d), d);
  }

  predicate SameKey(c: Fields, c': Fields, key: string) {
    (key in c <==> key in c') && (key in c ==> c[key] == c'[key])
  }

  /** The kind and the metadata are the same. */
  predicate SameIdentity(c: Fields, c': Fields) {
    SameKey(c, c', "apiVersion") && SameKey(c, c', "kind") && SameKey(c, c', METADATA)
  }

  lemma IdentityReads(c: Fields, c': Fields)
    requires SameIdentity(c, c')
    ensures KindOf(c) == KindOf(c') && (MetaOk(c) <==> MetaOk(c'))
    ensures forall key :: SameMeta(c, c', key)
  {
  }

  lemma ServiceKeepsIdentity(current: Fields, d: Fields)
    ensures SameIdentity(MergedService(current, d).0, d)
  {
    hide KindOf, NestedString;
  }

  lemma ServiceAccountKeepsIdentity(current: Fields, d: Fields)
    ensures SameIdentity(MergedServiceAccount(current, d).0, d)
  {
  }

  lemma KindsAreDisjoint(d: Fields)
    ensures !(IsService(d) && IsServiceAccount(d)) && !(IsDeployment(d) && (IsService(d) || IsServiceAccount(d)))
  {
  }

  lemma SameKindSameTests(c: Fields, c': Fields)
    requires KindOf(c) == KindOf(c')
    ensures IsService(c) <==> IsService(c')
    ensures IsServiceAccount(c) <==> IsServiceAccount(c')
    ensures IsDeployment(c) <==> IsDeployment(c')
  {
  }

  /** For each kind only one of the three special steps does anything. */
  lemma MergedByKind(current: Fields, d: Fields)
    ensures IsService(d) ==>
              Merged(current, d) ==
                if MergedService(current, d).1 then (MergedService(current, d).0, true)
                else (MergedMetadata(current, MergedService(current, d).0), false)
    ensures IsServiceAccount(d) ==>
              Merged(current, d) ==
                if MergedServiceAccount(current, d).1 then (MergedServiceAccount(current, d).0, true)
                else (MergedMetadata(current, MergedServiceAccount(current, d).0), false)
    ensures !IsService(d) && !IsServiceAccount(d) ==>
              Merged(current, d) == (MergedMetadata(current, MergedDeployment(current, d)), false)
  {
    hide IsService, IsServiceAccount, IsDeployment, SameIdentity, SameBody, SameMeta,
      MergedMetadata, MergedDeployment, MergedService, MergedServiceAccount;
    KindsAreDisjoint(d);
    StepsOfOtherKinds(current, d);
    var d0 := MergedDeployment(current, d);
    DeploymentKeepsBody(current, d);
    SameKindSameTests(d0, d);
    var d1 := MergedService(current, d0).0;
    ServiceKeepsIdentity(current, d0);
    IdentityReads(d1, d0);
    SameKindSameTests(d1, d0);
    StepsOfOtherKinds(current, d0);
    StepsOfOtherKinds(current, d1);
  }

  lemma StepsOfOtherKinds(current: Fields, d: Fields)
    ensures !IsDeployment(d) ==> MergedDeployment(current, d) == d
    ensures !IsService(d) ==> MergedService(current, d) == (d, false)
    ensures !IsServiceAccount(d) ==> MergedServiceAccount(current, d) == (d, false)
  {
  }

  /** A current object that can be merged into without error. */
  predicate Readable(c: Fields, d: Fields) {
    && (IsService(d) ==> !NestedString(c, "spec", "clusterIP").Malformed?)
    && (IsServiceAccount(d) ==> !TopSlice(c, "secrets").Malformed? && !TopSlice(c, "imagePullSecrets").Malformed?)
  }

  /** A service whose address must be written needs a `spec` to write it to. */
  predicate SpecOk(d: Fields) {
    "spec" in d ==> d["spec"].Object?
  }

  /** When a merge fails. */
  lemma MergeFailsIff(current: Fields, d: Fields)
    ensures Merged(current, d).1 <==>
              || !Readable(current, d)
              || (IsService(d) && NestedString(current, "spec", "clusterIP").Value? && !SpecOk(d))
  {
    MergedByKind(current, d);
    KindsAreDisjoint(d);
    hide KindOf, MergedMetadata, MergedDeployment, NestedString, Merged;
  }

  /** What a merge that succeeds leaves can be merged into again. */
  predicate Remergeable(c: Fields, d: Fields) {
    && (IsService(d) ==>
          NestedString(c, "spec", "clusterIP").Value? || !NestedString(d, "spec", "clusterIP").Malformed?)
    && (IsServiceAccount(d) ==>
          && (TopSlice(c, "secrets").Value? || !TopSlice(d, "secrets").Malformed?)
          && (TopSlice(c, "imagePullSecrets").Value? || !TopSlice(d, "imagePullSecrets").Malformed?))
  }

  lemma ServiceFixpoint(current: Fields, d: Fields)
    requires IsService(d) && !Merged(current, d).1
    ensures var m := Merged(current, d).0;
            if Remergeable(current, d) then Merged(m, d) == (m, false) else Merged(m, d).1
  {
    var m, d1 := Merged(current, d).0, MergedService(current, d).0;
    MergedByKind(current, d);
    MergedByKind(m, d);
    KindsAreDisjoint(d);
    MetadataKeepsBody(current, d1);
    BodyReads(m, d1);
    MetadataFixpoint(current, d1);
    ServiceStepAgain(current, d);
    hide KindOf, MergedMetadata, MergedDeployment, NestedString, Merged, WithNested;
  }

  /** The address that was copied in is read back, and copying it again changes nothing. */
  lemma ServiceStepAgain(current: Fields, d: Fields)
    requires IsService(d) && !MergedService(current, d).1
    ensures var d1 := MergedService(current, d).0;
            && NestedString(d1, "spec", "clusterIP")
               == (if NestedString(current, "spec", "clusterIP").Value? then NestedString(current, "spec", "clusterIP")
                   else NestedString(d, "spec", "clusterIP"))
            && (NestedString(d1, "spec", "clusterIP").Value? ==>
                  WithNested(d, "spec", "clusterIP", Str(NestedString(d1, "spec", "clusterIP").value)) == (d1, false))
  {
    hide KindOf;
    var ip := NestedString(current, "spec", "clusterIP");
    if ip.Missing? && NestedString(d, "spec", "clusterIP").Value? {
      var fields := d["spec"].fields;
      assert fields["clusterIP" := fields["clusterIP"]] == fields;
      assert d["spec" := Object(fields)] == d;
    }
  }

  lemma ServiceAccountFixpoint(current: Fields, d: Fields)
    requires IsServiceAccount(d) && !Merged(current, d).1
    ensures var m := Merged(current, d).0;
            if Remergeable(current, d) then Merged(m, d) == (m, false) else Merged(m, d).1
  {
    var m, d1 := Merged(current, d).0, MergedServiceAccount(current, d).0;
    MergedByKind(current, d);
    MergedByKind(m, d);
    KindsAreDisjoint(d);
    MetadataKeepsBody(current, d1);
    BodyReads(m, d1);
    MetadataFixpoint(current, d1);
    ListsAgain(current, d);
    hide KindOf, MergedMetadata, MergedDeployment, TopSlice, Merged, WithCurrentList;
    SameListsSameStep(m, d1, d);
  }

  lemma SameListsSameStep(c: Fields, c': Fields, d: Fields)
    requires TopSlice(c, "secrets") == TopSlice(c', "secrets")
    requires TopSlice(c, "imagePullSecrets") == TopSlice(c', "imagePullSecrets")
    ensures MergedServiceAccount(c, d) == MergedServiceAccount(c', d)
  {
  }

  lemma ListsAgain(current: Fields, d: Fields)
    requires IsServiceAccount(d) && !MergedServiceAccount(current, d).1
    ensures var d1 := MergedServiceAccount(current, d).0;
            if Remergeable(current, d) then MergedServiceAccount(d1, d) == (d1, false)
            else MergedServiceAccount(d1, d).1
  {
    assert "secrets" != "imagePullSecrets";
    KindsAreDisjoint(d);
    var withSecrets := WithCurrentList(current, d, "secrets");
    ListAgain(current, d, "secrets");
    ListSpares(current, d, "secrets", "imagePullSecrets");
    ListAgain(current, withSecrets, "imagePullSecrets");
    ListSpares(current, withSecrets, "imagePullSecrets", "secrets");
    var d1 := MergedServiceAccount(current, d).0;
    SameListSameStep(d1, withSecrets, d, "secrets");
    hide KindOf, TopSlice, WithCurrentList;
  }

  lemma SameListSameStep(c: Fields, c': Fields, d: Fields, key: string)
    requires TopSlice(c, key) == TopSlice(c', key)
    ensures WithCurrentList(c, d, key) == WithCurrentList(c', d, key)
  {
  }

  lemma ListSpares(current: Fields, d: Fields, key: string, other: string)
    requires other != key
    ensures TopSlice(WithCurrentList(current, d, key), other) == TopSlice(d, other)
  {
  }

  lemma ListAgain(current: Fields, d: Fields, key: string)
    ensures TopSlice(WithCurrentList(current, d, key), key)
            == if TopSlice(current, key).Value? then TopSlice(current, key) else TopSlice(d, key)
    ensures WithCurrentList(WithCurrentList(current, d, key), d, key) == WithCurrentList(current, d, key)
  {
  }

  lemma RevisionAgain(current: map<string, string>, desired: map<string, string>)
    ensures var kept := KeepRevision(current, desired);
            KeepRevision(current + kept, desired) == kept
  {
  }

  /** The annotations of a merged deployment: the union, with the current revision if there is one. */
  lemma DeploymentAnnotations(current: Fields, d: Fields)
    requires IsDeployment(d) && MetaOk(d)
    ensures var kept := KeepRevision(Strings(current, ANNOTATIONS), Strings(d, ANNOTATIONS));
            && Strings(MergedDeployment(current, d), ANNOTATIONS) == kept
            && Strings(MergedMetadata(current, MergedDeployment(current, d)), ANNOTATIONS)
               == Strings(current, ANNOTATIONS) + kept
  {
    var kept := KeepRevision(Strings(current, ANNOTATIONS), Strings(d, ANNOTATIONS));
    StringsRoundTrip(d, ANNOTATIONS, kept);
    DeploymentKeepsBody(current, d);
    hide KindOf, MergedMetadata, Strings, PutMeta, FromStrings, SameBody, SameServerFields, KeepRevision;
    MetadataMeaning(current, MergedDeployment(current, d));
  }

  /** The revision is the current one where there is one, so it is the same the second time. */
  lemma DeploymentStepAgain(current: Fields, d: Fields)
    ensures var d1 := MergedDeployment(current, d);
            MergedDeployment(MergedMetadata(current, d1), d) == d1
  {
    hide KindOf, MergedMetadata, Strings, PutMeta, FromStrings, KeepRevision;
    if IsDeployment(d) && MetaOk(d) {
      DeploymentAnnotations(current, d);
      RevisionAgain(Strings(current, ANNOTATIONS), Strings(d, ANNOTATIONS));
    } else if IsDeployment(d) {
      UnwritableDeployment(current, d);
      UnwritableDeployment(MergedMetadata(current, d), d);
    }
  }

  lemma UnwritableDeployment(current: Fields, d: Fields)
    requires !MetaOk(d)
    ensures MergedDeployment(current, d) == d
  {
  }

  lemma OtherFixpoint(current: Fields, d: Fields)
    requires !IsService(d) && !IsServiceAccount(d)
    ensures var m := Merged(current, d).0;
            !Merged(current, d).1 && Merged(m, d) == (m, false)
  {
    var m, d1 := Merged(current, d).0, MergedDeployment(current, d);
    MergedByKind(current, d);
    MergedByKind(m, d);
    DeploymentStepAgain(current, d);
    MetadataFixpoint(current, d1);
    hide MergedMetadata, MergedDeployment, Merged, KindOf;
  }

  /**
   Merging the same desired object into what a merge left yields that again iff the fields
   the desired object does not get from the current one are well-formed in it. Otherwise
   the second merge fails.
   */
  lemma MergeFixpoint(current: Fields, d: Fields)
    requires !Merged(current, d).1
    ensures var m := Merged(current, d).0;
            && (Merged(m, d) == (m, false) <==> Remergeable(current, d))
            && (Merged(m, d).1 <==> !Remergeable(current, d))
  {
    hide Merged, KindOf, NestedString, TopSlice;
    if IsService(d) {
      ServiceFixpoint(current, d);
    } else if IsServiceAccount(d) {
      ServiceAccountFixpoint(current, d);
    } else {
      OtherFixpoint(current, d);
    }
  }

  function ServiceWithSpec(spec: Fields): Fields {
    map["apiVersion" := Str("v1"), "kind" := Str("Service"), "spec" := Object(spec)]
  }

  lemma ServiceWithSpecIsService(spec: Fields)
    ensures IsService(ServiceWithSpec(spec))
  {
    var c := ServiceWithSpec(spec);
    assert TopString(c, "apiVersion") == "v1" && TopString(c, "kind") == "Service";
    assert '/' !in "v1";
    Text.IndexOfSpec("v1", '/');
    hide Text.IndexOf, ServiceWithSpec, TopString;
  }

  lemma AddressOfSpec(spec: Fields)
    ensures NestedString(ServiceWithSpec(spec), "spec", "clusterIP") ==
              if "clusterIP" !in spec then Missing
              else if spec["clusterIP"].Str? then Value(spec["clusterIP"].s) else Malformed
  {
  }

  /** A service whose address is a number: the first merge copies nothing and succeeds, the second one trips over it. */
  lemma MalformedAddressIsNoFixpoint()
    ensures var current, d := ServiceWithSpec(map[]), ServiceWithSpec(map["clusterIP" := Number(5)]);
            !Merged(current, d).1 && Merged(Merged(current, d).0, d).1
  {
    hide Merged, KindOf, NestedString, TopSlice, ServiceWithSpec, IsService, IsServiceAccount;
    var none, number := map[], map["clusterIP" := Number(5)];
    var current, d := ServiceWithSpec(none), ServiceWithSpec(number);
    ServiceWithSpecIsService(number);
    KindsAreDisjoint(d);
    AddressOfSpec(none);
    AddressOfSpec(number);
    MergeFailsIff(current, d);
    MergeFixpoint(current, d);
  }

  // ----- what a merge means -----

  /**
   The annotations a merge takes from the desired object: all, except that the current revision
   stands in for its own.
  */
  function WantedAnnotations(current: Fields, d: Fields): map<string, string> {
    if IsDeployment(d) then KeepRevision(Strings(current, ANNOTATIONS), Strings(d, ANNOTATIONS))
    else Strings(d, ANNOTATIONS)
  }

  /** What the server assigned to this kind of object, where it is there. */
  ghost predicate KeepsAssigned(c: Fields, c': Fields, d: Fields) {
    && (IsService(d) && NestedString(c, "spec", "clusterIP").Value? ==>
          NestedString(c', "spec", "clusterIP") == NestedString(c, "spec", "clusterIP"))
    && (IsServiceAccount(d) && TopSlice(c, "secrets").Value? ==> TopSlice(c', "secrets") == TopSlice(c, "secrets"))
    && (IsServiceAccount(d) && TopSlice(c, "imagePullSecrets").Value? ==>
          TopSlice(c', "imagePullSecrets") == TopSlice(c, "imagePullSecrets"))
  }

  /** Field by field: the server's fields are the current ones, the maps are joined, the identity is the desired one. */
  ghost predicate Keeps(current: Fields, d: Fields, m: Fields) {
    && SameServerFields(m, current) && KeepsAssigned(current, m, d)
    && Strings(m, LABELS) == Strings(current, LABELS) + Strings(d, LABELS)
    && Strings(m, ANNOTATIONS) == Strings(current, ANNOTATIONS) + WantedAnnotations(current, d)
    && KindOf(m) == KindOf(d)
    && MetaText(m, "name") == MetaText(d, "name") && MetaText(m, "namespace") == MetaText(d, "namespace")
  }

  /**
   What a merge that succeeds means. A desired object whose metadata is no object keeps it,
   and only gets what the server assigned to its kind.
   */
  lemma MergeMeaning(current: Fields, d: Fields)
    requires !Merged(current, d).1
    ensures var m := Merged(current, d).0;
            if MetaOk(d) then Keeps(current, d, m)
            else KeepsAssigned(current, m, d) && KindOf(m) == KindOf(d) && SameKey(m, d, METADATA)
  {
    hide Merged, KindOf, IsService, IsServiceAccount, IsDeployment, WantedAnnotations, Strings, Keeps,
      KeepsAssigned, SameKey;
    MergedByKind(current, d);
    KindsAreDisjoint(d);
    if !MetaOk(d) {
      UnwritableMeaning(current, d);
    } else if IsService(d) {
      ServiceMeaning(current, d);
    } else if IsServiceAccount(d) {
      ServiceAccountMeaning(current, d);
    } else {
      OtherMeaning(current, d);
    }
  }

  lemma UnwritableMeaning(current: Fields, d: Fields)
    requires !MetaOk(d) && !Merged(current, d).1
    ensures var m := Merged(current, d).0;
            KeepsAssigned(current, m, d) && KindOf(m) == KindOf(d) && SameKey(m, d, METADATA)
  {
    hide Merged, KindOf, IsService, IsServiceAccount, IsDeployment, MergedMetadata, MergedDeployment, MergedService,
      MergedServiceAccount, NestedString, TopSlice, WithNested;
    MergedByKind(current, d);
    KindsAreDisjoint(d);
    if IsService(d) {
      ServiceKeepsIdentity(current, d);
      IdentityReads(MergedService(current, d).0, d);
      MetadataUnwritable(current, MergedService(current, d).0);
      ServiceStepAgain(current, d);
    } else if IsServiceAccount(d) {
      ServiceAccountKeepsIdentity(current, d);
      IdentityReads(MergedServiceAccount(current, d).0, d);
      MetadataUnwritable(current, MergedServiceAccount(current, d).0);
      ListsCopied(current, d);
    } else {
      StepsOfOtherKinds(current, d);
      UnwritableDeployment(current, d);
      MetadataUnwritable(current, d);
    }
  }

  /** The metadata step after one of the special steps. */
  lemma MetadataAfter(current: Fields, d1: Fields, d: Fields)
    requires MetaOk(d) && SameIdentity(d1, d)
    ensures var m := MergedMetadata(current, d1);
            && SameServerFields(m, current) && SameBody(m, d1)
            && Strings(m, LABELS) == Strings(current, LABELS) + Strings(d, LABELS)
            && Strings(m, ANNOTATIONS) == Strings(current, ANNOTATIONS) + Strings(d, ANNOTATIONS)
            && KindOf(m) == KindOf(d)
            && MetaText(m, "name") == MetaText(d, "name") && MetaText(m, "namespace") == MetaText(d, "namespace")
  {
    IdentityReads(d1, d);
    assert SameMeta(d1, d, LABELS) && SameMeta(d1, d, ANNOTATIONS) && SameMeta(d1, d, "name")
        && SameMeta(d1, d, "namespace");
    SameMetaSameMeaning(d1, d, LABELS);
    SameMetaSameMeaning(d1, d, ANNOTATIONS);
    MetadataMeaning(current, d1);
    hide MergedMetadata, Strings, SameServerFields, SameBody, KindOf, SameIdentity;
    MetadataNames(current, d1);
    SameMetaSameMeaning(d1, d, "name");
    SameMetaSameMeaning(d1, d, "namespace");
    KindIgnoresMetadata(MergedMetadata(current, d1), d1);
  }

  lemma MetadataNames(current: Fields, d: Fields)
    ensures MetaText(MergedMetadata(current, d), "name") == MetaText(d, "name")
    ensures MetaText(MergedMetadata(current, d), "namespace") == MetaText(d, "namespace")
  {
    MetadataSpares(current, d, "name");
    MetadataSpares(current, d, "namespace");
    hide MergedMetadata, Nested;
    SameMetaSameMeaning(MergedMetadata(current, d), d, "name");
    SameMetaSameMeaning(MergedMetadata(current, d), d, "namespace");
  }

  lemma ServiceMeaning(current: Fields, d: Fields)
    requires IsService(d) && MetaOk(d) && !MergedService(current, d).1
    ensures Keeps(current, d, MergedMetadata(current, MergedService(current, d).0))
  {
    hide MergedMetadata, Strings, SameServerFields, SameBody, KindOf, NestedString, TopSlice, MetaText, WithNested,
      MetaOk;
    var d1 := MergedService(current, d).0;
    KindsAreDisjoint(d);
    ServiceKeepsIdentity(current, d);
    ServiceStepAgain(current, d);
    MetadataAfter(current, d1, d);
    BodyReads(MergedMetadata(current, d1), d1);
  }

  lemma ServiceAccountMeaning(current: Fields, d: Fields)
    requires IsServiceAccount(d) && MetaOk(d) && !MergedServiceAccount(current, d).1
    ensures Keeps(current, d, MergedMetadata(current, MergedServiceAccount(current, d).0))
  {
    hide MergedMetadata, Strings, SameServerFields, SameBody, KindOf, NestedString, TopSlice, MetaText,
      WithCurrentList, MetaOk;
    var d1 := MergedServiceAccount(current, d).0;
    KindsAreDisjoint(d);
    ServiceAccountKeepsIdentity(current, d);
    ListsCopied(current, d);
    MetadataAfter(current, d1, d);
    BodyReads(MergedMetadata(current, d1), d1);
  }

  lemma ListsCopied(current: Fields, d: Fields)
    requires IsServiceAccount(d) && !MergedServiceAccount(current, d).1
    ensures var d1 := MergedServiceAccount(current, d).0;
            && (TopSlice(current, "secrets").Value? ==> TopSlice(d1, "secrets") == TopSlice(current, "secrets"))
            && (TopSlice(current, "imagePullSecrets").Value? ==>
                  TopSlice(d1, "imagePullSecrets") == TopSlice(current, "imagePullSecrets"))
  {
  }

  lemma OtherMeaning(current: Fields, d: Fields)
    requires !IsService(d) && !IsServiceAccount(d) && MetaOk(d)
    ensures Keeps(current, d, MergedMetadata(current, MergedDeployment(current, d)))
  {
    hide MergedMetadata, MergedDeployment, Strings, SameServerFields, SameBody, KindOf, MetaText, MetaOk, KeepRevision;
    if IsDeployment(d) {
      var d1 := MergedDeployment(current, d);
      DeploymentAnnotations(current, d);
      DeploymentKeepsBody(current, d);
      MetadataMeaning(current, d1);
      MetadataNames(current, d1);
      DeploymentSpares(current, d, LABELS);
      DeploymentSpares(current, d, "name");
      DeploymentSpares(current, d, "namespace");
      KindIgnoresMetadata(MergedMetadata(current, d1), d1);
    } else {
      StepsOfOtherKinds(current, d);
      MetadataAfter(current, d, d);
    }
  }

  lemma DeploymentSpares(current: Fields, d: Fields, key: string)
    requires key != ANNOTATIONS
    ensures Strings(MergedDeployment(current, d), key) == Strings(d, key)
    ensures MetaText(MergedDeployment(current, d), key) == MetaText(d, key)
  {
    PutSpares(d, ANNOTATIONS, Some(FromStrings(KeepRevision(Strings(current, ANNOTATIONS),
        Strings(d, ANNOTATIONS)))), key);
    hide PutMeta, Nested, KindOf;
    SameMetaSameMeaning(MergedDeployment(current, d), d, key);
  }

  /** The body of the desired object that its kind does not get from the server. */
  predicate OwnKey(d: Fields, key: string) {
    && key != METADATA && !(IsService(d) && key == "spec")
    && !(IsServiceAccount(d) && (key == "secrets" || key == "imagePullSecrets"))
  }

  /** Everything else is the desired object's. */
  lemma MergeFrame(current: Fields, d: Fields, key: string)
    requires !Merged(current, d).1
    ensures var m := Merged(current, d).0;
            && (OwnKey(d, key) ==> SameKey(m, d, key))
            && (IsService(d) && key != "clusterIP" ==> Nested(m, "spec", key) == Nested(d, "spec", key))
            && (key !in SERVER_KEYS && key != ANNOTATIONS && key != LABELS ==> SameMeta(m, d, key))
  {
    MergedByKind(current, d);
    KindsAreDisjoint(d);
    hide Merged, KindOf, MergedMetadata, IsService, IsServiceAccount, IsDeployment;
    var d1 := if IsService(d) then MergedService(current, d).0
              else if IsServiceAccount(d) then MergedServiceAccount(current, d).0
              else MergedDeployment(current, d);
    StepFrame(current, d, key);
    MetadataKeepsBody(current, d1);
    if key !in SERVER_KEYS && key != ANNOTATIONS && key != LABELS {
      MetadataSpares(current, d1, key);
    }
    assert "spec" != METADATA;
  }

  lemma StepFrame(current: Fields, d: Fields, key: string)
    ensures var d1 := if IsService(d) then MergedService(current, d).0
                      else if IsServiceAccount(d) then MergedServiceAccount(current, d).0
                      else MergedDeployment(current, d);
            && (OwnKey(d, key) ==> SameKey(d1, d, key))
            && (IsService(d) && key != "clusterIP" ==> Nested(d1, "spec", key) == Nested(d, "spec", key))
            && (key != ANNOTATIONS ==> SameMeta(d1, d, key))
  {
    KindsAreDisjoint(d);
    hide KindOf, IsService, IsServiceAccount, IsDeployment;
    if IsService(d) {
      ServiceKeepsIdentity(current, d);
      IdentityReads(MergedService(current, d).0, d);
    } else if IsServiceAccount(d) {
      ServiceAccountKeepsIdentity(current, d);
      IdentityReads(MergedServiceAccount(current, d).0, d);
    } else {
      DeploymentKeepsBody(current, d);
      if key != ANNOTATIONS {
        PutSpares(d, ANNOTATIONS, Some(FromStrings(KeepRevision(Strings(current, ANNOTATIONS),
            Strings(d, ANNOTATIONS)))), key);
      }
    }
  }
}

/** `pkg/apply/apply.go`: applying desired objects to a store that keeps what it is given. */
module Apply {
  import opened Unstructured
  import opened Merge
  import opened MergeLaws

  datatype Key = Key(kind: GroupVersionKind, namespace: string, name: string)

  function KeyOf(d: Fields): Key {
    Key(KindOf(d), MetaText(d, "namespace"), MetaText(d, "name"))
  }

  type Store = map<Key, Fields>

  /** The call that fails, if it is made. */
  datatype Fault = NoFault | GetFails | CreateFails | UpdateFails

  /**
   The store afterwards, whether an error is returned, whether anything was written, and what became
   of the object.
  */
  datatype Effect = Effect(store: Store, err: bool, wrote: bool, obj: Fields)

  /** `ApplyObject`. The desired object is turned into the merged one, as far as the merge gets. */
  function Applied(s: Store, d: Fields, fault: Fault): Effect {
    var key := KeyOf(d);
    if key.name == "" || !Supported(d) || fault == GetFails then Effect(s, true, false, d)
    else if key !in s then
      if fault == CreateFails then Effect(s, true, false, d) else Effect(s[key := d], false, true, d)
    else
      var (m, failed) := Merged(s[key], d);
      if failed then Effect(s, true, false, m)
      else if m == s[key] then Effect(s, false, false, m)
      else if fault == UpdateFails then Effect(s, true, false, m)
      else Effect(s[key := m], false, true, m)
  }

  /** Every object is stored under its own key. */
  ghost predicate StoreOk(s: Store) {
    forall k :: k in s ==> KeyOf(s[k]) == k
  }

  /** An object with a name has metadata to write to. */
  lemma NamedIsWritable(d: Fields)
    requires MetaText(d, "name") != ""
    ensures MetaOk(d)
  {
  }

  /** A merge does not change which object it is. */
  lemma MergeKeepsKey(current: Fields, d: Fields)
    requires KeyOf(d).name != "" && !Merged(current, d).1
    ensures KeyOf(Merged(current, d).0) == KeyOf(d)
  {
    NamedIsWritable(d);
    hide Merged, KindOf, MetaText;
    MergeMeaning(current, d);
  }

  // ----- the code -----

  class Client {
    var objects: Store

    constructor (s: Store)
      ensures objects == s
    {
      objects := s;
    }

    method Create(obj: Fields, fails: bool) returns (err: bool)
      modifies this
      ensures err <==> fails || KeyOf(obj) in old(objects)
      ensures objects == if err then old(objects) else old(objects)[KeyOf(obj) := obj]
    {
      if fails || KeyOf(obj) in objects {
        return true;
      }
      objects := objects[KeyOf(obj) := obj];
      return false;
    }

    method Update(obj: Fields, fails: bool) returns (err: bool)
      modifies this
      ensures err <==> fails || KeyOf(obj) !in old(objects)
      ensures objects == if err then old(objects) else old(objects)[KeyOf(obj) := obj]
    {
      if fails || KeyOf(obj) !in objects {
        return true;
      }
      objects := objects[KeyOf(obj) := obj];
      return false;
    }
  }

  /** `ApplyObject`. */
  method ApplyObject(client: Client, obj: Unstructured, fault: Fault) returns (err: bool)
    modifies client, obj
    ensures var r := Applied(old(client.objects), old(obj.content), fault);
            client.objects == r.store && err == r.err && obj.content == r.obj
  {
    hide Merged, KindOf, MetaText, Supported;
    var key := KeyOf(obj.content);
    if key.name == "" {
      return true;
    }
    var unsupported := IsObjectSupported(obj.content);
    if unsupported {
      return true;
    }
    if fault == GetFails {
      return true;
    }
    if key !in client.objects {
      err := client.Create(obj.content, fault == CreateFails);
      return err;
    }
    var existing := new Unstructured(client.objects[key]);
    ghost var desired := obj.content;
    err := MergeObjectForUpdate(existing, obj);
    if err {
      return true;
    }
    MergeKeepsKey(existing.content, desired);
    if existing.content != obj.content {
      err := client.Update(obj.content, fault == UpdateFails);
      return err;
    }
    return false;
  }

  // ----- one apply -----

  /** An apply that errors leaves the store alone, and any apply leaves every other object alone. */
  lemma ApplyFrame(s: Store, d: Fields, fault: Fault)
    requires StoreOk(s)
    ensures var r := Applied(s, d, fault);
            && StoreOk(r.store) && (r.err ==> r.store == s) && (r.wrote <==> r.store != s)
            && (forall k :: k in s ==> k in r.store)
            && (forall k :: k in r.store && k != KeyOf(d) ==> k in s && r.store[k] == s[k])
  {
    hide Merged, KindOf, MetaText, Supported;
    var key := KeyOf(d);
    if key in s && key.name != "" && !Merged(s[key], d).1 {
      MergeKeepsKey(s[key], d);
    }
  }

  /** Two objects are kept apart by group, version, kind, namespace and name. */
  lemma KeysTellApart(c: Fields, d: Fields)
    ensures KeyOf(c) == KeyOf(d) <==>
            && KindOf(c).group == KindOf(d).group && KindOf(c).version == KindOf(d).version
            && KindOf(c).kind == KindOf(d).kind
            && MetaText(c, "namespace") == MetaText(d, "namespace") && MetaText(c, "name") == MetaText(d, "name")
  {
    hide KindOf, MetaText;
  }

  /**
   An apply fails iff the object has no name, is not supported, cannot be merged, or a call that
   it makes fails. Otherwise the object is there: as it was given, or merged into the one there was.
   */
  lemma ApplyMeaning(s: Store, d: Fields, fault: Fault)
    ensures var r, key := Applied(s, d, fault), KeyOf(d);
            && (r.err <==> || MetaText(d, "name") == "" || !Supported(d) || fault == GetFails
                           || (key !in s && fault == CreateFails)
                           || (key in s && (Merged(s[key], d).1
                                            || (fault == UpdateFails && Merged(s[key], d).0 != s[key]))))
            && (r.err ==> r.store == s)
            && (!r.err ==> r.store == s[key := if key in s then Merged(s[key], d).0 else d])
  {
    hide Merged, KindOf, MetaText, Supported;
  }

  /** A second apply of the same object. */
  function Again(s: Store, d: Fields): Effect {
    Applied(Applied(s, d, NoFault).store, d, NoFault)
  }

  /**
   After an apply onto an existing object, applying again writes nothing; it succeeds iff the object
   is well-formed enough.
  */
  lemma ApplyExistingTwice(s: Store, d: Fields)
    requires StoreOk(s) && KeyOf(d) in s && !Applied(s, d, NoFault).err
    ensures Again(s, d).store == Applied(s, d, NoFault).store && !Again(s, d).wrote
    ensures Again(s, d).err <==> !Remergeable(s[KeyOf(d)], d)
  {
    hide Merged, KindOf, MetaText, Supported, Remergeable;
    MergeFixpoint(s[KeyOf(d)], d);
  }

  /**
   Whatever was there before, an object that is applied without error twice is settled: a third time
   writes nothing.
  */
  lemma TwoAppliesSettle(s: Store, d: Fields)
    requires StoreOk(s)
    ensures var s2 := Again(s, d).store;
            !Applied(s, d, NoFault).err && !Again(s, d).err ==>
              KeyOf(d) in s2 && Applied(s2, d, NoFault) == Effect(s2, false, false, s2[KeyOf(d)])
  {
    hide Merged, KindOf, MetaText, Supported, Remergeable;
    if !Applied(s, d, NoFault).err && !Again(s, d).err {
      if KeyOf(d) in s {
        ApplyExistingTwice(s, d);
      } else {
        var s1 := Applied(s, d, NoFault).store;
        assert s1[KeyOf(d)] == d && !Merged(d, d).1;
        SelfRemergeable(d);
        ApplyExistingTwice(s1, d);
      }
    }
  }

  lemma SelfRemergeable(d: Fields)
    requires !Merged(d, d).1
    ensures Remergeable(d, d)
  {
  }

  // ----- runs -----

  datatype Request = Request(desired: Fields, fault: Fault)

  function Run(s: Store, requests: seq<Request>): Store {
    if requests == [] then s
    else
      var last := requests[|requests| - 1];
      Applied(Run(s, requests[..|requests| - 1]), last.desired, last.fault).store
  }

  /** What the server assigned to an object of this kind stays, and its labels and annotations only grow. */
  ghost predicate ProtectsKind(k: Key, c: Fields, c': Fields) {
    && (k.kind.group == "" && k.kind.kind == "Service" && NestedString(c, "spec", "clusterIP").Value? ==>
          NestedString(c', "spec", "clusterIP") == NestedString(c, "spec", "clusterIP"))
    && (k.kind.group == "" && k.kind.kind == "ServiceAccount" && TopSlice(c, "secrets").Value? ==>
          TopSlice(c', "secrets") == TopSlice(c, "secrets"))
    && (k.kind.group == "" && k.kind.kind == "ServiceAccount" && TopSlice(c, "imagePullSecrets").Value? ==>
          TopSlice(c', "imagePullSecrets") == TopSlice(c, "imagePullSecrets"))
    && (k.kind.group == "apps" && k.kind.kind == "Deployment" && REVISION in Strings(c, ANNOTATIONS) ==>
          && REVISION in Strings(c', ANNOTATIONS)
          && Strings(c', ANNOTATIONS)[REVISION] == Strings(c, ANNOTATIONS)[REVISION])
    && Strings(c, LABELS).Keys <= Strings(c', LABELS).Keys
    && Strings(c, ANNOTATIONS).Keys <= Strings(c', ANNOTATIONS).Keys
  }

  /** What no apply may change about an object once it exists. */
  ghost predicate Protects(k: Key, c: Fields, c': Fields) {
    SameServerFields(c', c) && ProtectsKind(k, c, c')
  }

  lemma ProtectsItself(k: Key, c: Fields)
    ensures Protects(k, c, c)
  {
  }

  lemma ProtectsOnward(k: Key, c0: Fields, c1: Fields, c2: Fields)
    requires Protects(k, c0, c1) && Protects(k, c1, c2)
    ensures Protects(k, c0, c2)
  {
  }

  lemma MergeProtects(current: Fields, d: Fields)
    requires KeyOf(d).name != "" && !Merged(current, d).1
    ensures Protects(KeyOf(d), current, Merged(current, d).0)
  {
    hide Merged, KindOf, MetaText, NestedString, TopSlice, Strings, SameServerFields, MetaOk;
    NamedIsWritable(d);
    MergeMeaning(current, d);
  }

  lemma ApplyProtects(s: Store, d: Fields, fault: Fault, k: Key)
    requires k in s
    ensures k in Applied(s, d, fault).store && Protects(k, s[k], Applied(s, d, fault).store[k])
  {
    hide Merged, KindOf, MetaText, Supported, Protects;
    ProtectsItself(k, s[k]);
    if k == KeyOf(d) && k.name != "" && !Merged(s[k], d).1 {
      MergeProtects(s[k], d);
    }
  }

  /**
   No run of applies, with whatever failures, changes what the server owns of an existing object or
   takes a label or annotation away.
  */
  lemma {:induction false} RunProtects(s: Store, requests: seq<Request>, k: Key)
    requires k in s
    ensures k in Run(s, requests) && Protects(k, s[k], Run(s, requests)[k])
  {
    hide Applied, Protects;
    if requests == [] {
      ProtectsItself(k, s[k]);
    } else {
      var init, last := requests[..|requests| - 1], requests[|requests| - 1];
      RunProtects(s, init, k);
      var s1 := Run(s, init);
      ApplyProtects(s1, last.desired, last.fault, k);
      ProtectsOnward(k, s[k], s1[k], Run(s, requests)[k]);
    }
  }

  /** The right-biased join of all maps that were applied to the object without error, over the one it had. */
  function Joined(s: Store, requests: seq<Request>, k: Key, field: string): map<string, string>
    requires k in s
  {
    if requests == [] then Strings(s[k], field)
    else
      var init, last := requests[..|requests| - 1], requests[|requests| - 1];
      var before := Joined(s, init, k, field);
      if KeyOf(last.desired) == k && !Applied(Run(s, init), last.desired, last.fault).err
      then before + Strings(last.desired, field)
      else before
  }

  /** The labels and annotations of `m` are joins, the revision of a deployment aside. */
  ghost predicate Joins(c: Fields, d: Fields, m: Fields) {
    && Strings(m, LABELS) == Strings(c, LABELS) + Strings(d, LABELS)
    && Strings(m, ANNOTATIONS) - {REVISION} == (Strings(c, ANNOTATIONS) + Strings(d, ANNOTATIONS)) - {REVISION}
    && (!IsDeployment(d) ==> Strings(m, ANNOTATIONS) == Strings(c, ANNOTATIONS) + Strings(d, ANNOTATIONS))
  }

  lemma MergeJoins(c: Fields, d: Fields)
    requires KeyOf(d).name != "" && !Merged(c, d).1
    ensures Joins(c, d, Merged(c, d).0)
  {
    hide Merged, KindOf, MetaText, Strings, IsDeployment, MetaOk, SameServerFields, KeepsAssigned, WantedAnnotations;
    NamedIsWritable(d);
    MergeMeaning(c, d);
    KeptElsewhere(c, d);
  }

  lemma ApplyJoins(s: Store, d: Fields, fault: Fault, k: Key)
    requires k in s
    ensures var r := Applied(s, d, fault);
            k in r.store && if KeyOf(d) == k && !r.err then Joins(s[k], d, r.store[k]) else r.store[k] == s[k]
  {
    hide Merged, KindOf, MetaText, Supported, Joins;
    if KeyOf(d) == k && !Applied(s, d, fault).err {
      MergeJoins(s[k], d);
    }
  }

  lemma KeptElsewhere(current: Fields, d: Fields)
    ensures (Strings(current, ANNOTATIONS) + WantedAnnotations(current, d)) - {REVISION}
            == (Strings(current, ANNOTATIONS) + Strings(d, ANNOTATIONS)) - {REVISION}
    ensures !IsDeployment(d) ==> WantedAnnotations(current, d) == Strings(d, ANNOTATIONS)
  {
  }

  lemma JoinOnward(a: map<string, string>, b: map<string, string>, c: map<string, string>)
    requires a - {REVISION} == b - {REVISION}
    ensures (a + c) - {REVISION} == (b + c) - {REVISION}
  {
    forall k | k in (a + c) - {REVISION} || k in (b + c) - {REVISION}
      ensures k in (a + c) - {REVISION} && k in (b + c) - {REVISION} && (a + c)[k] == (b + c)[k]
    {
      assert k in a - {REVISION} <==> k in b - {REVISION};
      assert k in a - {REVISION} ==> (a - {REVISION})[k] == (b - {REVISION})[k];
    }
    assert (a + c) - {REVISION} == (b + c) - {REVISION};
  }

  /**
   After any run, the labels and annotations of an existing object are those joins, the revision of a
   deployment aside.
  */
  lemma {:induction false} RunJoins(s: Store, requests: seq<Request>, k: Key)
    requires k in s && StoreOk(s)
    ensures k in Run(s, requests)
    ensures Strings(Run(s, requests)[k], LABELS) == Joined(s, requests, k, LABELS)
    ensures Strings(Run(s, requests)[k], ANNOTATIONS) - {REVISION} == Joined(s, requests, k, ANNOTATIONS) - {REVISION}
    ensures !(k.kind.group == "apps" && k.kind.kind == "Deployment") ==>
              Strings(Run(s, requests)[k], ANNOTATIONS) == Joined(s, requests, k, ANNOTATIONS)
  {
    hide Applied, Strings, KindOf;
    if requests != [] {
      var init, last := requests[..|requests| - 1], requests[|requests| - 1];
      RunJoins(s, init, k);
      ApplyJoins(Run(s, init), last.desired, last.fault, k);
      JoinOnward(Strings(Run(s, init)[k], ANNOTATIONS), Joined(s, init, k, ANNOTATIONS),
          Strings(last.desired, ANNOTATIONS));
    }
  }
}

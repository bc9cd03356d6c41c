/**
 `ApplyObject` (`pkg/apply/apply.go`) with its Get and its Create or Update as steps of their
 own, interleaved with each other and with other writers on a server that gives every object
 it stores a new resource version and refuses an update made from an older one.
 */
module ApplyProtocol {
  import opened Prelude
  import opened Unstructured
  import opened Merge
  import opened MergeLaws
  import opened Apply

  const VERSION := "resourceVersion"

  /** The text of a version; any other injective encoding would do. */
  function Version(n: nat): (v: string)
    ensures |v| == n + 1
  {
    seq(n + 1, _ => '1')
  }

  /** How far an apply has come: what it read, or that there was nothing to read. */
  datatype Worker = Resting | Read(desired: Fields, seen: Fields) | Missed(desired: Fields)

  datatype State = State(objects: Store, next: nat, workers: seq<Worker>)

  datatype Action =
    | Get(w: nat, desired: Fields)
    | Write(w: nat)
    | Fail(w: nat)
    | Other(content: Fields)    // someone else creates or replaces the object
    | Remove(key: Key)

  /** The content as the server stores it. */
  function Stamped(c: Fields, n: nat): Fields {
    PutMeta(c, VERSION, Some(Str(Version(n))))
  }

  function Stored(s: State, c: Fields): State {
    s.(objects := s.objects[KeyOf(c) := Stamped(c, s.next)], next := s.next + 1)
  }

  function WithWorker(s: State, w: nat, worker: Worker): State
    requires w < |s.workers|
  {
    s.(workers := s.workers[w := worker])
  }

  /** What an apply sends after it has read `seen`, if it sends anything. */
  function Sent(desired: Fields, seen: Fields): Option<Fields> {
    var (m, failed) := Merged(seen, desired);
    if failed || m == seen then None else Some(m)
  }

  /** The server takes an update for the version it was made from. */
  predicate Accepts(s: State, c: Fields) {
    KeyOf(c) in s.objects && MetaText(s.objects[KeyOf(c)], VERSION) == MetaText(c, VERSION)
  }

  /** The Create or Update of an apply, and what the server makes of it. */
  function Put(s: State, worker: Worker): (r: State)
    ensures r.workers == s.workers
  {
    match worker
    case Resting => s
    case Missed(d) => if KeyOf(d) in s.objects then s else Stored(s, d)
    case Read(d, seen) =>
      if Sent(d, seen).Some? && Accepts(s, Sent(d, seen).value) then Stored(s, Sent(d, seen).value) else s
  }

  /** One step; an action that is not enabled changes nothing. */
  function After(s: State, a: Action): State {
    match a
    case Get(w, d) =>
      if w < |s.workers| && s.workers[w].Resting? && KeyOf(d).name != "" && Supported(d) then
        WithWorker(s, w, if KeyOf(d) in s.objects then Read(d, s.objects[KeyOf(d)]) else Missed(d))
      else s
    case Write(w) => if w < |s.workers| then WithWorker(Put(s, s.workers[w]), w, Resting) else s
    case Fail(w) => if w < |s.workers| then WithWorker(s, w, Resting) else s
    case Other(c) => if KeyOf(c).name != "" then Stored(s, c) else s
    case Remove(k) => s.(objects := s.objects - {k})
  }

  function Run(s: State, actions: seq<Action>): State {
    if actions == [] then s else After(Run(s, actions[..|actions| - 1]), actions[|actions| - 1])
  }

  /** What the others do: they store an object under its key with a new version, or remove one. */
  lemma OthersAct(s: State, c: Fields, k: Key)
    ensures KeyOf(c).name != "" ==>
              After(s, Other(c)) == s.(objects := s.objects[KeyOf(c) := Stamped(c, s.next)], next := s.next + 1)
    ensures var r := After(s, Remove(k));
            && r.objects.Keys == s.objects.Keys - {k} && (forall j :: j in r.objects ==> r.objects[j] == s.objects[j])
            && r.next == s.next && r.workers == s.workers
  {
    hide KindOf, MetaText, Stamped;
  }

  // ----- versions tell contents apart -----

  ghost predicate VersionBelow(c: Fields, next: nat) {
    exists n: nat :: n < next && MetaText(c, VERSION) == Version(n)
  }

  ghost predicate WorkerOk(s: State, worker: Worker) {
    match worker
    case Resting => true
    case Missed(d) => KeyOf(d).name != ""
    case Read(d, seen) =>
      && KeyOf(d).name != "" && KeyOf(seen) == KeyOf(d) && VersionBelow(seen, s.next)
      && (KeyOf(d) in s.objects && MetaText(s.objects[KeyOf(d)], VERSION) == MetaText(seen, VERSION) ==>
            s.objects[KeyOf(d)] == seen)
  }

  ghost predicate Invariant(s: State) {
    && (forall k :: k in s.objects ==> k.name != "" && KeyOf(s.objects[k]) == k && VersionBelow(s.objects[k], s.next))
    && (forall w :: 0 <= w < |s.workers| ==> WorkerOk(s, s.workers[w]))
  }

  /** A server without objects, and nothing under way. */
  lemma EmptyServerIsInvariant(s: State)
    requires s.objects == map[] && forall w :: 0 <= w < |s.workers| ==> s.workers[w].Resting?
    ensures Invariant(s)
  {
  }

  /** Stamping changes the version and nothing else that is read. */
  lemma StampReads(c: Fields, n: nat)
    requires MetaOk(c)
    ensures var c' := Stamped(c, n);
            && MetaText(c', VERSION) == Version(n) && KeyOf(c') == KeyOf(c)
            && MetaText(c', "uid") == MetaText(c, "uid")
            && MetaText(c', "creationTimestamp") == MetaText(c, "creationTimestamp")
            && Strings(c', LABELS) == Strings(c, LABELS) && Strings(c', ANNOTATIONS) == Strings(c, ANNOTATIONS)
            && SameBody(c, c')
  {
    hide PutMeta, Nested, MetaText, Strings, KindOf, MetaOk;
    var v := Some(Str(Version(n)));
    StampText(c, n);
    PutMetaFrame(c, VERSION, v);
    KindIgnoresMetadata(c, Stamped(c, n));
    PutSpares(c, VERSION, v, "name");
    PutSpares(c, VERSION, v, "namespace");
    PutSpares(c, VERSION, v, "uid");
    PutSpares(c, VERSION, v, "creationTimestamp");
    PutSpares(c, VERSION, v, LABELS);
    PutSpares(c, VERSION, v, ANNOTATIONS);
    SameMetaSameMeaning(Stamped(c, n), c, LABELS);
    SameMetaSameMeaning(Stamped(c, n), c, ANNOTATIONS);
  }

  lemma StampText(c: Fields, n: nat)
    requires MetaOk(c)
    ensures MetaText(Stamped(c, n), VERSION) == Version(n)
  {
    hide PutMeta;
    PutMetaFrame(c, VERSION, Some(Str(Version(n))));
  }

  lemma VersionsDiffer(c: Fields, next: nat)
    requires VersionBelow(c, next)
    ensures MetaText(c, VERSION) != Version(next) && MetaText(c, VERSION) != ""
    ensures VersionBelow(c, next + 1)
  {
    var n: nat :| n < next && MetaText(c, VERSION) == Version(n);
    assert n < next + 1;
  }

  lemma StoredKeepsInvariant(s: State, c: Fields)
    requires Invariant(s) && KeyOf(c).name != ""
    ensures Invariant(Stored(s, c))
  {
    hide MetaText, KindOf, PutMeta, Version;
    NamedIsWritable(c);
    StampReads(c, s.next);
    hide Stamped, VersionBelow, SameBody;
    var s' := Stored(s, c);
    StampIsBelow(c, s.next);
    forall k | k in s.objects ensures VersionBelow(s.objects[k], s.next + 1) {
      VersionsDiffer(s.objects[k], s.next);
    }
    forall w | 0 <= w < |s'.workers| ensures WorkerOk(s', s'.workers[w]) {
      assert WorkerOk(s, s.workers[w]);
      if s.workers[w].Read? {
        VersionsDiffer(s.workers[w].seen, s.next);
      }
    }
  }

  lemma StampIsBelow(c: Fields, n: nat)
    requires MetaOk(c)
    ensures VersionBelow(Stamped(c, n), n + 1)
  {
    StampText(c, n);
    hide Stamped, Version, MetaText;
  }

  lemma WorkerKeepsInvariant(s: State, w: nat, worker: Worker)
    requires Invariant(s) && w < |s.workers| && WorkerOk(s, worker)
    ensures Invariant(WithWorker(s, w, worker))
  {
    hide MetaText, KindOf, VersionBelow;
    var s' := WithWorker(s, w, worker);
    forall v | 0 <= v < |s'.workers| ensures WorkerOk(s', s'.workers[v]) {
      assert WorkerOk(s, s.workers[v]);
    }
  }

  /** What is sent after a read names the same object and carries the version that was read. */
  lemma SentReads(desired: Fields, seen: Fields)
    requires KeyOf(desired).name != "" && Sent(desired, seen).Some?
    ensures var m := Sent(desired, seen).value;
            KeyOf(m) == KeyOf(desired) && MetaText(m, VERSION) == MetaText(seen, VERSION)
  {
    hide Merged, KindOf, MetaText, KeepsAssigned, Strings, WantedAnnotations;
    NamedIsWritable(desired);
    MergeMeaning(seen, desired);
  }

  lemma StepKeepsInvariant(s: State, a: Action)
    requires Invariant(s)
    ensures Invariant(After(s, a))
  {
    hide MetaText, KindOf, VersionBelow, Supported, Stored, Sent, Accepts, WithWorker, KeyOf, Put;
    match a
    case Get(w, d) => GetKeepsInvariant(s, w, d);
    case Write(w) =>
      if w < |s.workers| {
        PutKeepsInvariant(s, s.workers[w]);
        WorkerKeepsInvariant(Put(s, s.workers[w]), w, Resting);
      }
    case Fail(w) =>
      if w < |s.workers| {
        WorkerKeepsInvariant(s, w, Resting);
      }
    case Other(c) =>
      if KeyOf(c).name != "" {
        StoredKeepsInvariant(s, c);
      }
    case Remove(k) => RemovalKeepsInvariant(s, k);
  }

  lemma RemovalKeepsInvariant(s: State, k: Key)
    requires Invariant(s)
    ensures Invariant(s.(objects := s.objects - {k}))
  {
    hide MetaText, KindOf, VersionBelow;
    var s' := s.(objects := s.objects - {k});
    forall v | 0 <= v < |s'.workers| ensures WorkerOk(s', s'.workers[v]) {
      assert WorkerOk(s, s.workers[v]);
    }
  }

  lemma GetKeepsInvariant(s: State, w: nat, d: Fields)
    requires Invariant(s)
    ensures Invariant(After(s, Get(w, d)))
  {
    hide MetaText, KindOf, VersionBelow, Supported, WithWorker;
    if w < |s.workers| && s.workers[w].Resting? && KeyOf(d).name != "" && Supported(d) {
      WorkerKeepsInvariant(s, w, if KeyOf(d) in s.objects then Read(d, s.objects[KeyOf(d)]) else Missed(d));
    }
  }

  lemma PutKeepsInvariant(s: State, worker: Worker)
    requires Invariant(s) && WorkerOk(s, worker)
    ensures Invariant(Put(s, worker))
  {
    hide MetaText, KindOf, VersionBelow, Sent, Accepts, Stored, Invariant;
    match worker
    case Resting =>
    case Missed(d) => StoredKeepsInvariant(s, d);
    case Read(d, seen) =>
      if Sent(d, seen).Some? {
        SentReads(d, seen);
        StoredKeepsInvariant(s, Sent(d, seen).value);
      }
  }

  lemma {:induction false} RunKeepsInvariant(s: State, actions: seq<Action>)
    requires Invariant(s)
    ensures Invariant(Run(s, actions))
  {
    if actions != [] {
      hide Invariant, After;
      RunKeepsInvariant(s, actions[..|actions| - 1]);
      StepKeepsInvariant(Run(s, actions[..|actions| - 1]), actions[|actions| - 1]);
    }
  }

  // ----- laws -----

  /** The write of a worker changed the stored objects. */
  ghost predicate Writes(s: State, w: nat) {
    w < |s.workers| && After(s, Write(w)).objects != s.objects
  }

  /**
   No lost update: in every reachable state, a write that goes through either creates an
   object where there is none, or replaces exactly the object that was read, by its merge.
   */
  lemma WriteReplacesWhatItRead(s: State, actions: seq<Action>, w: nat)
    requires Invariant(s) && Writes(Run(s, actions), w)
    ensures var r := Run(s, actions);
            var objects := After(r, Write(w)).objects;
            match r.workers[w]
            case Resting => false
            case Missed(d) => KeyOf(d) !in r.objects && objects == r.objects[KeyOf(d) := Stamped(d, r.next)]
            case Read(d, seen) =>
              && KeyOf(d) in r.objects && r.objects[KeyOf(d)] == seen && !Merged(seen, d).1
              && objects == r.objects[KeyOf(d) := Stamped(Merged(seen, d).0, r.next)]
  {
    hide MetaText, KindOf, VersionBelow, Merged, Stamped;
    RunKeepsInvariant(s, actions);
    var r := Run(s, actions);
    hide Run;
    assert WorkerOk(r, r.workers[w]);
    if r.workers[w].Read? && Sent(r.workers[w].desired, r.workers[w].seen).Some? {
      SentReads(r.workers[w].desired, r.workers[w].seen);
    }
  }

  /** The first and the second call of an apply that nobody interferes with. */
  function FirstCall(w: nat, d: Fields, fault: Fault): Action {
    if fault == GetFails then Fail(w) else Get(w, d)
  }

  function SecondCall(objects: Store, w: nat, d: Fields, fault: Fault): Action {
    if fault == (if KeyOf(d) in objects then UpdateFails else CreateFails) then Fail(w) else Write(w)
  }

  /** Undisturbed, the steps store what `ApplyObject` stores, with a new version. */
  lemma UndisturbedIsApplied(s: State, w: nat, d: Fields, fault: Fault)
    requires w < |s.workers| && s.workers[w].Resting?
    ensures var r := After(After(s, FirstCall(w, d, fault)), SecondCall(s.objects, w, d, fault));
            var effect := Applied(s.objects, d, fault);
            && r.workers == s.workers
            && r.objects == if effect.wrote then s.objects[KeyOf(d) := Stamped(effect.obj, s.next)] else s.objects
  {
    hide MetaText, KindOf, Merged, Stamped, Supported;
    if KeyOf(d) in s.objects && KeyOf(d).name != "" && Sent(d, s.objects[KeyOf(d)]).Some? {
      SentReads(d, s.objects[KeyOf(d)]);
    }
    assert s.workers[w := Resting] == s.workers;
  }

  /** What stays of an object whatever is applied to it: all that `Protects` says, but for the version. */
  ghost predicate Owned(k: Key, c: Fields, c': Fields) {
    && MetaText(c', "uid") == MetaText(c, "uid")
    && MetaText(c', "creationTimestamp") == MetaText(c, "creationTimestamp")
    && ProtectsKind(k, c, c')
  }

  lemma StampOwned(k: Key, c: Fields, m: Fields, n: nat)
    requires MetaOk(m) && Protects(k, c, m)
    ensures Owned(k, c, Stamped(m, n))
  {
    hide MetaText, KindOf, Strings, NestedString, TopSlice, Stamped, Generation, MetaOk, Version;
    StampReads(m, n);
    BodyReads(m, Stamped(m, n));
  }

  lemma OwnedItself(k: Key, c: Fields)
    ensures Owned(k, c, c)
  {
  }

  lemma OwnedOnward(k: Key, c0: Fields, c1: Fields, c2: Fields)
    requires Owned(k, c0, c1) && Owned(k, c1, c2)
    ensures Owned(k, c0, c2)
  {
    hide NestedString, TopSlice, Strings, MetaText;
  }

  /** Everybody else respects what the server owns of object `k`, and does not remove it. */
  ghost predicate Respects(s: State, a: Action, k: Key) {
    match a
    case Other(c) => KeyOf(c) == k && k in s.objects ==> Owned(k, s.objects[k], Stamped(c, s.next))
    case Remove(other) => other != k
    case _ => true
  }

  lemma StepOwns(s: State, a: Action, k: Key)
    requires Invariant(s) && k in s.objects && Respects(s, a, k)
    ensures k in After(s, a).objects && Owned(k, s.objects[k], After(s, a).objects[k])
  {
    hide MetaText, KindOf, VersionBelow, Merged, Stamped, Owned, Supported;
    OwnedItself(k, s.objects[k]);
    if a.Write? && Writes(s, a.w) {
      assert Run(s, []) == s;
      WriteReplacesWhatItRead(s, [], a.w);
      assert WorkerOk(s, s.workers[a.w]);
      if s.workers[a.w].Read? && KeyOf(s.workers[a.w].desired) == k {
        MergeProtects(s.objects[k], s.workers[a.w].desired);
        MergeKeepsKey(s.objects[k], s.workers[a.w].desired);
        NamedIsWritable(Merged(s.objects[k], s.workers[a.w].desired).0);
        StampOwned(k, s.objects[k], Merged(s.objects[k], s.workers[a.w].desired).0, s.next);
      }
    }
  }

  ghost predicate RespectfulRun(s: State, actions: seq<Action>, k: Key) {
    forall i :: 0 <= i < |actions| ==> Respects(Run(s, actions[..i]), actions[i], k)
  }

  /**
   In any interleaving of applies, with whatever failures and conflicts, an object's UID,
   creation time, assigned fields and label and annotation keys survive, unless another
   writer changes or removes them.
   */
  lemma {:induction false} RunOwns(s: State, actions: seq<Action>, k: Key)
    requires Invariant(s) && k in s.objects && RespectfulRun(s, actions, k)
    ensures k in Run(s, actions).objects && Owned(k, s.objects[k], Run(s, actions).objects[k])
  {
    hide Owned, After, Invariant, Respects;
    if actions == [] {
      OwnedItself(k, s.objects[k]);
    } else {
      var init, last := actions[..|actions| - 1], actions[|actions| - 1];
      forall i | 0 <= i < |init| ensures Respects(Run(s, init[..i]), init[i], k) {
        assert init[..i] == actions[..i];
      }
      RunOwns(s, init, k);
      RunKeepsInvariant(s, init);
      assert actions[..|actions| - 1] == init;
      StepOwns(Run(s, init), last, k);
      OwnedOnward(k, s.objects[k], Run(s, init).objects[k], Run(s, actions).objects[k]);
    }
  }
}

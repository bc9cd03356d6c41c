/**
 The two reconcilers on the shared `ptp-configmap`: every List, Get, Create and Update is one
 step, in any interleaving with each other, with edits of the PtpConfigs, with node changes,
 with deletions of the map and with failing calls.
 */
module ConfigMapProtocol {
  import opened Prelude
  import opened PtpTypes
  import opened NodeAssignment

  /** What the users and the cluster control. */
  datatype World = World(configs: seq<PtpConfig>, nodes: seq<Node>)

  datatype ConfigMap = ConfigMap(version: nat, data: NodeData)

  /** How far a PtpConfig reconcile has come; times are positions in the history. */
  datatype Reconcile =
    | Idle
    | ListedConfigs(tc: nat)
    | ListedNodes(tc: nat, tn: nat)
    | Built(tc: nat, tn: nat, data: NodeData)
    | Fetched(tc: nat, tn: nat, data: NodeData, version: nat, seen: NodeData)

  /** A successful update: the times of its two lists and of the update itself. */
  datatype Write = Write(tc: nat, tn: nat, at: nat)

  datatype State = State(
    encode: Encoder,
    history: seq<World>,
    cm: Option<ConfigMap>,
    nextVersion: nat,
    reconciles: seq<Reconcile>,
    creating: seq<bool>,                // operator reconciles that saw the map missing
    writes: seq<Write>)
  {
    function Now(): int { |history| - 1 }
  }

  datatype Action =
    | EditConfigs(configs: seq<PtpConfig>)
    | ChangeNodes(nodes: seq<Node>)
    | DeleteMap
    | ListConfigs(w: nat)
    | ListNodes(w: nat)
    | Build(w: nat)
    | Fetch(w: nat)
    | Update(w: nat)
    | Fail(w: nat)
    | OperatorGet(o: nat)
    | OperatorCreate(o: nat)
    | OperatorFail(o: nat)

  ghost predicate Initial(s: State) {
    && |s.history| == 1 && s.cm.None? && s.writes == []
    && (forall w :: 0 <= w < |s.reconciles| ==> s.reconciles[w].Idle?)
    && (forall o :: 0 <= o < |s.creating| ==> !s.creating[o])
  }

  function Moved(s: State, w: nat, r: Reconcile): State
    requires w < |s.reconciles|
  {
    s.(reconciles := s.reconciles[w := r])
  }

  /** The map for the PtpConfigs listed at one time and the nodes listed at another. */
  ghost function AssignmentAt(s: State, tc: nat, tn: nat): Outcome<NodeData>
    requires tc < |s.history| && tn < |s.history|
  {
    Assignment(s.encode, s.history[tc].configs, s.history[tn].nodes)
  }

  /** The state after reconcile `w` has written data that it computed from these snapshots. */
  function Written(s: State, w: nat, tc: nat, tn: nat, data: NodeData): State
    requires w < |s.reconciles| && |s.history| > 0
  {
    Moved(s, w, Idle).(cm := Some(ConfigMap(s.nextVersion, data)),
                       nextVersion := s.nextVersion + 1,
                       writes := s.writes + [Write(tc, tn, s.Now())])
  }

  /** The steps of one PtpConfig reconcile: `Reconcile` and `syncPtpConfig`. */
  ghost function ReconcileStep(s: State, a: Action, w: nat): State
    requires w < |s.reconciles| && |s.history| > 0
  {
    var r, now := s.reconciles[w], s.Now();
    match a
    case ListConfigs(_) => if r.Idle? then Moved(s, w, ListedConfigs(now)) else s
    case ListNodes(_) => if r.ListedConfigs? then Moved(s, w, ListedNodes(r.tc, now)) else s
    case Build(_) =>
      if r.ListedNodes? && r.tc < |s.history| && r.tn < |s.history| then
        // a node without a selection ends the reconcile before anything is written
        match AssignmentAt(s, r.tc, r.tn)
        case Ok(data) => Moved(s, w, Built(r.tc, r.tn, data))
        case Err => Moved(s, w, Idle)
        case Panic => Moved(s, w, Idle)
      else s
    case Fetch(_) =>
      if r.Built? then
        if s.cm.None? then Moved(s, w, Idle)
        else Moved(s, w, Fetched(r.tc, r.tn, r.data, s.cm.value.version, s.cm.value.data))
      else s
    case Update(_) =>
      if r.Fetched? then
        if s.cm.None? || s.cm.value.version != r.version then Moved(s, w, Idle)
        else Written(s, w, r.tc, r.tn, r.data)
      else s
    case _ => Moved(s, w, Idle)
  }

  /** The steps of `createPTPConfigMap`. */
  function OperatorStep(s: State, a: Action, o: nat): State
    requires o < |s.creating|
  {
    match a
    case OperatorGet(_) => s.(creating := s.creating[o := s.cm.None?])
    case OperatorCreate(_) =>
      if s.creating[o] && s.cm.None? then
        s.(creating := s.creating[o := false],
           cm := Some(ConfigMap(s.nextVersion, map[])),
           nextVersion := s.nextVersion + 1)
      else s.(creating := s.creating[o := false])
    case _ => s.(creating := s.creating[o := false])
  }

  /** One step; an action that is not enabled changes nothing. */
  ghost function After(s: State, a: Action): (r: State)
    requires |s.history| > 0
    ensures |r.history| > 0
  {
    match a
    case EditConfigs(configs) => s.(history := s.history + [World(configs, s.history[s.Now()].nodes)])
    case ChangeNodes(nodes) => s.(history := s.history + [World(s.history[s.Now()].configs, nodes)])
    case DeleteMap => s.(cm := None)
    case OperatorGet(o) => if o < |s.creating| then OperatorStep(s, a, o) else s
    case OperatorCreate(o) => if o < |s.creating| then OperatorStep(s, a, o) else s
    case OperatorFail(o) => if o < |s.creating| then OperatorStep(s, a, o) else s
    case _ => if a.w < |s.reconciles| then ReconcileStep(s, a, a.w) else s
  }

  /** The state after a run. */
  ghost function Run(s: State, actions: seq<Action>): (r: State)
    requires |s.history| > 0
    ensures |r.history| > 0
  {
    if actions == [] then s else After(Run(s, actions[..|actions| - 1]), actions[|actions| - 1])
  }

  /** What the others do: the newest world is the edited one, the older ones stay, and the map can go at any time. */
  lemma OthersAct(s: State, configs: seq<PtpConfig>, nodes: seq<Node>)
    requires |s.history| > 0
    ensures var r := After(s, EditConfigs(configs));
            r.history == s.history + [World(configs, s.history[s.Now()].nodes)] && r.cm == s.cm
            && r.reconciles == s.reconciles
    ensures var r := After(s, ChangeNodes(nodes));
            r.history == s.history + [World(s.history[s.Now()].configs, nodes)] && r.cm == s.cm
            && r.reconciles == s.reconciles
    ensures var r := After(s, DeleteMap);
            r.cm.None? && r.history == s.history && r.reconciles == s.reconciles && r.nextVersion == s.nextVersion
  {
  }

  // ----- safety -----

  /** The data is the complete map for one list of PtpConfigs and one no-earlier list of nodes. */
  ghost predicate AssignedAt(s: State, tc: nat, tn: nat, data: NodeData) {
    tc <= tn < |s.history| && AssignmentAt(s, tc, tn) == Ok(data)
  }

  ghost predicate ReconcileOk(s: State, r: Reconcile) {
    match r
    case Idle => true
    case ListedConfigs(tc) => tc < |s.history|
    case ListedNodes(tc, tn) => tc <= tn < |s.history|
    case Built(tc, tn, data) => AssignedAt(s, tc, tn, data)
    case Fetched(tc, tn, data, version, seen) =>
      && AssignedAt(s, tc, tn, data) && version < s.nextVersion
      && (s.cm.Some? && s.cm.value.version == version ==> s.cm.value.data == seen)
  }

  /** The stored data is empty, or the complete map that the last update wrote. */
  ghost predicate MapOk(s: State) {
    s.cm.Some? ==>
      || s.cm.value.data == map[]
      || (s.writes != [] &&
          AssignedAt(s, s.writes[|s.writes| - 1].tc, s.writes[|s.writes| - 1].tn, s.cm.value.data))
  }

  ghost predicate Invariant(s: State) {
    && |s.history| > 0
    && (s.cm.Some? ==> s.cm.value.version < s.nextVersion)
    && (forall w :: 0 <= w < |s.reconciles| ==> ReconcileOk(s, s.reconciles[w]))
    && (forall x :: x in s.writes ==> x.tc <= x.tn <= x.at < |s.history|)
    && MapOk(s)
  }

  /** What a map is computed from does not change with the progress of anything. */
  lemma SameAssignment(s: State, s': State, tc: nat, tn: nat)
    requires s'.encode == s.encode && tc < |s.history| && tn < |s.history| && s.history <= s'.history
    ensures AssignmentAt(s, tc, tn) == AssignmentAt(s', tc, tn)
  {
  }

  /** Whatever the others do: the history only grows, and a changed map has a version never seen before. */
  ghost predicate MovesOn(s: State, s': State) {
    && s'.encode == s.encode && s.history <= s'.history && s.nextVersion <= s'.nextVersion
    && (s'.cm == s.cm || s'.cm.None? || s.nextVersion <= s'.cm.value.version)
  }

  lemma ReconcileStaysOk(s: State, s': State, r: Reconcile)
    requires MovesOn(s, s') && ReconcileOk(s, r)
    ensures ReconcileOk(s', r)
  {
    hide AssignmentAt;
    if r.Built? || r.Fetched? {
      SameAssignment(s, s', r.tc, r.tn);
    }
  }

  lemma MapStaysOk(s: State, s': State)
    requires MapOk(s) && MovesOn(s, s') && s'.writes == s.writes
    requires s'.cm == s.cm || s'.cm.None? || s'.cm.value.data == map[]
    ensures MapOk(s')
  {
    hide AssignmentAt;
    if s'.cm.Some? && s'.cm.value.data != map[] {
      var last := s.writes[|s.writes| - 1];
      SameAssignment(s, s', last.tc, last.tn);
    }
  }

  /** A step that is no update keeps the invariant if it keeps what it left of its own reconcile. */
  lemma UnwrittenKeepsInvariant(s: State, s': State)
    requires Invariant(s) && MovesOn(s, s') && s'.writes == s.writes && |s'.reconciles| == |s.reconciles|
    requires s'.cm == s.cm || s'.cm.None? || (s'.cm.value.data == map[] && s'.cm.value.version < s'.nextVersion)
    requires forall w :: 0 <= w < |s.reconciles| ==>
            s'.reconciles[w] == s.reconciles[w] || ReconcileOk(s', s'.reconciles[w])
    ensures Invariant(s')
  {
    hide AssignmentAt, AssignedAt, MapOk;
    MapStaysOk(s, s');
    forall w | 0 <= w < |s'.reconciles| ensures ReconcileOk(s', s'.reconciles[w]) {
      ReconcileStaysOk(s, s', s.reconciles[w]);
    }
  }

  lemma WrittenKeepsInvariant(s: State, w: nat)
    requires Invariant(s) && w < |s.reconciles| && s.reconciles[w].Fetched?
    ensures var r := s.reconciles[w];
            Invariant(Written(s, w, r.tc, r.tn, r.data))
  {
    hide AssignmentAt;
    var r := s.reconciles[w];
    var s' := Written(s, w, r.tc, r.tn, r.data);
    assert ReconcileOk(s, r);
    SameAssignment(s, s', r.tc, r.tn);
    forall v | 0 <= v < |s'.reconciles| ensures ReconcileOk(s', s'.reconciles[v]) {
      ReconcileStaysOk(s, s', s.reconciles[v]);
    }
  }

  /** A step of a reconcile either writes or only moves the reconcile. */
  lemma StepWritesOrMoves(s: State, a: Action, w: nat)
    requires w < |s.reconciles| && |s.history| > 0
    ensures var s', r := ReconcileStep(s, a, w), s.reconciles[w];
            if s'.writes != s.writes then a.Update? && r.Fetched? && s' == Written(s, w, r.tc, r.tn, r.data)
            else |s'.reconciles| == |s.reconciles| && s' == Moved(s, w, s'.reconciles[w])
  {
    hide AssignmentAt;
    assert s.reconciles[w := s.reconciles[w]] == s.reconciles;
  }

  lemma MovedReconcileOk(s: State, a: Action, w: nat)
    requires Invariant(s) && w < |s.reconciles| && ReconcileStep(s, a, w).writes == s.writes
    ensures |ReconcileStep(s, a, w).reconciles| == |s.reconciles|
            && ReconcileOk(s, ReconcileStep(s, a, w).reconciles[w])
  {
    hide AssignmentAt, MapOk;
    assert ReconcileOk(s, s.reconciles[w]);
  }

  lemma ReconcileKeepsInvariant(s: State, a: Action, w: nat)
    requires Invariant(s) && w < |s.reconciles|
    ensures Invariant(ReconcileStep(s, a, w))
  {
    hide ReconcileStep, MapOk, ReconcileOk, Written;
    StepWritesOrMoves(s, a, w);
    var s' := ReconcileStep(s, a, w);
    if s'.writes != s.writes {
      WrittenKeepsInvariant(s, w);
    } else {
      MovedReconcileOk(s, a, w);
      ReconcileStaysOk(s, s', s'.reconciles[w]);
      UnwrittenKeepsInvariant(s, s');
    }
  }

  lemma StepKeepsInvariant(s: State, a: Action)
    requires Invariant(s)
    ensures Invariant(After(s, a))
  {
    hide AssignmentAt, MapOk, ReconcileOk;
    match a
    case EditConfigs(configs) => UnwrittenKeepsInvariant(s, After(s, a));
    case ChangeNodes(nodes) => UnwrittenKeepsInvariant(s, After(s, a));
    case DeleteMap => UnwrittenKeepsInvariant(s, After(s, a));
    case OperatorGet(o) => OperatorKeepsInvariant(s, a, o);
    case OperatorCreate(o) => OperatorKeepsInvariant(s, a, o);
    case OperatorFail(o) => OperatorKeepsInvariant(s, a, o);
    case _ =>
      if a.w < |s.reconciles| {
        hide Invariant;
        ReconcileKeepsInvariant(s, a, a.w);
      }
  }

  lemma OperatorKeepsInvariant(s: State, a: Action, o: nat)
    requires Invariant(s)
    ensures o < |s.creating| ==> Invariant(OperatorStep(s, a, o))
  {
    hide AssignmentAt, MapOk, ReconcileOk;
    if o < |s.creating| {
      UnwrittenKeepsInvariant(s, OperatorStep(s, a, o));
    }
  }

  /** The operator creates the map empty if it is absent, and never touches one that is there. */
  lemma OperatorNeverOverwrites(s: State, a: Action, o: nat)
    requires o < |s.creating|
    ensures s.cm.Some? ==> OperatorStep(s, a, o).cm == s.cm
    ensures s.cm.None? ==> OperatorStep(s, a, o).cm in {None, Some(ConfigMap(s.nextVersion, map[]))}
    ensures OperatorStep(s, a, o).reconciles == s.reconciles && OperatorStep(s, a, o).writes == s.writes
  {
  }

  lemma {:induction false} RunKeepsInvariant(s: State, actions: seq<Action>)
    requires Invariant(s)
    ensures Invariant(Run(s, actions))
  {
    if actions != [] {
      hide Invariant, After;
      RunKeepsInvariant(s, actions[..|actions| - 1]);
      StepKeepsInvariant(Run(s, actions[..|actions| - 1]), actions[|actions| - 1]);
    }
  }

  /** The data holds all profiles selected for each node, by one list of PtpConfigs and one no-earlier list of nodes. */
  ghost predicate StoredFrom(s: State, tc: nat, tn: nat, data: NodeData) {
    && tc <= tn < |s.history|
    && Stores(s.encode, s.history[tc].configs, s.history[tn].nodes, data)
  }

  /** In every reachable state the stored map is empty or complete: never partial, never mixed. */
  lemma StoredMapIsEmptyOrComplete(s: State, actions: seq<Action>)
    requires Initial(s)
    ensures var r := Run(s, actions);
            r.cm.Some? ==>
              || r.cm.value.data == map[]
              || exists tc: nat, tn: nat ::
                   AssignedAt(r, tc, tn, r.cm.value.data) && StoredFrom(r, tc, tn, r.cm.value.data)
  {
    assert |s.history| > 0;
    RunKeepsInvariant(s, actions);
    var r := Run(s, actions);
    hide Run, AssignedAt, StoredFrom, Initial;
    if r.cm.Some? && r.cm.value.data != map[] {
      var x := r.writes[|r.writes| - 1];
      AssignedIsStored(r, x.tc, x.tn, r.cm.value.data);
    }
  }

  lemma AssignedIsStored(s: State, tc: nat, tn: nat, data: NodeData)
    requires AssignedAt(s, tc, tn, data)
    ensures StoredFrom(s, tc, tn, data)
  {
    hide Stores, Assignment;
    AssignmentIsTheStoredMap(s.encode, s.history[tc].configs, s.history[tn].nodes, data);
  }

  /** An update that goes through replaces exactly the data its reconcile had fetched. */
  lemma UpdateReplacesWhatItSaw(s: State, actions: seq<Action>, w: nat)
    requires Initial(s)
    requires var r := Run(s, actions);
             w < |r.reconciles| && r.reconciles[w].Fetched? && After(r, Update(w)).writes != r.writes
    ensures var r := Run(s, actions);
            && r.cm.Some? && r.cm.value.data == r.reconciles[w].seen
            && After(r, Update(w)).cm == Some(ConfigMap(r.nextVersion, r.reconciles[w].data))
  {
    RunKeepsInvariant(s, actions);
    assert ReconcileOk(Run(s, actions), Run(s, actions).reconciles[w]);
  }

  // ----- the order of the snapshots -----

  /** At most one PtpConfig reconcile is under way. */
  ghost predicate Serial(s: State) {
    forall v, w :: 0 <= v < w < |s.reconciles| ==> s.reconciles[v].Idle? || s.reconciles[w].Idle?
  }

  ghost predicate SerialRun(s: State, actions: seq<Action>)
    requires |s.history| > 0
  {
    forall k :: 0 <= k <= |actions| ==> Serial(Run(s, actions[..k]))
  }

  /** No snapshot of a later write is older than any snapshot of an earlier one. */
  ghost predicate Forwards(writes: seq<Write>) {
    forall i, j :: 0 <= i < j < |writes| ==> writes[i].tn <= writes[j].tc
  }

  /** Reconciles under way started after all writes so far. */
  ghost predicate StartedAfterWrites(s: State) {
    forall w, x :: 0 <= w < |s.reconciles| && !s.reconciles[w].Idle? && x in s.writes ==> x.tn <= s.reconciles[w].tc
  }

  lemma SerialUpdate(s: State, a: Action)
    requires Invariant(s) && Serial(s) && After(s, a).writes != s.writes
    requires Forwards(s.writes) && StartedAfterWrites(s)
    ensures Forwards(After(s, a).writes) && StartedAfterWrites(After(s, a))
  {
    hide Assignment;
    assert a.Update? && s.reconciles[a.w].Fetched?;
    var s', r := After(s, a), s.reconciles[a.w];
    assert s'.writes == s.writes + [Write(r.tc, r.tn, s.Now())] && s'.reconciles == s.reconciles[a.w := Idle];
    hide After, Invariant;
    forall i, j | 0 <= i < j < |s'.writes| ensures s'.writes[i].tn <= s'.writes[j].tc {
      assert s.writes[i] in s.writes;
    }
  }

  lemma SerialStep(s: State, a: Action)
    requires Invariant(s) && Serial(s) && Serial(After(s, a))
    requires Forwards(s.writes) && StartedAfterWrites(s)
    ensures Forwards(After(s, a).writes) && StartedAfterWrites(After(s, a))
  {
    hide Assignment;
    var s' := After(s, a);
    if s'.writes != s.writes {
      SerialUpdate(s, a);
    } else {
      forall w, x | 0 <= w < |s'.reconciles| && !s'.reconciles[w].Idle? && x in s'.writes
        ensures x.tn <= s'.reconciles[w].tc
      {
        assert s'.reconciles[w] == s.reconciles[w]
            || (s'.reconciles[w].ListedConfigs? && s'.reconciles[w].tc == s.Now())
               || (!s.reconciles[w].Idle? && s'.reconciles[w].tc == s.reconciles[w].tc);
      }
    }
  }

  /** With the PtpConfig reconciles serialised, the snapshots behind the stored map never go backwards. */
  lemma {:induction false} SerialRunsGoForwards(s: State, actions: seq<Action>)
    requires Initial(s) && SerialRun(s, actions)
    ensures Forwards(Run(s, actions).writes) && StartedAfterWrites(Run(s, actions))
  {
    if actions != [] {
      var init, a := actions[..|actions| - 1], actions[|actions| - 1];
      forall k | 0 <= k <= |init| ensures Serial(Run(s, init[..k])) {
        assert init[..k] == actions[..k];
      }
      SerialRunsGoForwards(s, init);
      RunKeepsInvariant(s, init);
      assert init == actions[..|init|] && actions == actions[..|actions|];
      SerialStep(Run(s, init), a);
    }
  }

  // ----- composing runs -----

  lemma {:induction false} RunAppend(s: State, first: seq<Action>, second: seq<Action>)
    requires |s.history| > 0
    ensures Run(s, first + second) == Run(Run(s, first), second)
  {
    hide After;
    if second == [] {
      assert first + second == first;
    } else {
      var init, last := second[..|second| - 1], second[|second| - 1];
      RunAppend(s, first, init);
      assert (first + second)[..|first + second| - 1] == first + init;
    }
  }

  lemma RunOne(s: State, a: Action)
    requires |s.history| > 0
    ensures Run(s, [a]) == After(s, a)
  {
    hide After;
    assert [a][..0] == [];
    assert Run(s, []) == s;
  }

  lemma RunTwo(s: State, a: Action, b: Action)
    requires |s.history| > 0
    ensures Run(s, [a, b]) == After(After(s, a), b)
  {
    hide After;
    RunAppend(s, [a], [b]);
    RunOne(s, a);
    RunOne(Run(s, [a]), b);
    assert [a] + [b] == [a, b];
  }

  lemma RunThree(s: State, a: Action, b: Action, c: Action)
    requires |s.history| > 0
    ensures Run(s, [a, b, c]) == After(After(After(s, a), b), c)
  {
    hide After;
    RunAppend(s, [a, b], [c]);
    RunTwo(s, a, b);
    RunOne(Run(s, [a, b]), c);
    assert [a, b] + [c] == [a, b, c];
  }

  // ----- one reconcile with nothing in between -----

  function Listing(w: nat): seq<Action> {
    [ListConfigs(w), ListNodes(w)]
  }

  function Writing(w: nat): seq<Action> {
    [Build(w), Fetch(w), Update(w)]
  }

  lemma BothListed(s: State, w: nat)
    requires |s.history| > 0 && w < |s.reconciles| && s.reconciles[w].Idle?
    ensures Run(s, Listing(w)) == Moved(s, w, ListedNodes(s.Now(), s.Now()))
  {
    hide AssignmentAt, Run;
    RunTwo(s, ListConfigs(w), ListNodes(w));
    var listed := ListedConfigs(s.Now());
    assert After(s, ListConfigs(w)) == Moved(s, w, listed);
    MovedTwice(s, w, listed, ListedNodes(s.Now(), s.Now()));
  }

  lemma BuildSucceeds(s: State, w: nat, data: NodeData)
    requires w < |s.reconciles| && s.reconciles[w].ListedNodes?
    requires AssignedAt(s, s.reconciles[w].tc, s.reconciles[w].tn, data)
    ensures var r := s.reconciles[w];
            After(s, Build(w)) == Moved(s, w, Built(r.tc, r.tn, data))
  {
    hide AssignmentAt;
  }

  lemma BuildFails(s: State, w: nat)
    requires w < |s.reconciles| && s.reconciles[w].ListedNodes?
            && s.reconciles[w].tc <= s.reconciles[w].tn < |s.history|
    requires !AssignmentAt(s, s.reconciles[w].tc, s.reconciles[w].tn).Ok?
    ensures After(s, Build(w)) == Moved(s, w, Idle)
  {
    hide AssignmentAt;
  }

  lemma FetchStep(s: State, w: nat)
    requires |s.history| > 0 && w < |s.reconciles| && s.reconciles[w].Built?
    ensures var r := s.reconciles[w];
            After(s, Fetch(w))
            == Moved(s, w, if s.cm.None? then Idle else Fetched(r.tc, r.tn, r.data, s.cm.value.version,
                s.cm.value.data))
  {
  }

  lemma IdleStays(s: State, w: nat, a: Action)
    requires |s.history| > 0 && w < |s.reconciles| && s.reconciles[w].Idle?
    requires a in {Fetch(w), Update(w), Fail(w)}
    ensures After(s, a) == s
  {
    assert s.reconciles[w := Idle] == s.reconciles;
  }

  lemma FailStep(s: State, w: nat)
    requires |s.history| > 0 && w < |s.reconciles|
    ensures After(s, Fail(w)) == Moved(s, w, Idle)
  {
  }

  lemma MovedTwice(s: State, w: nat, r: Reconcile, r': Reconcile)
    requires w < |s.reconciles|
    ensures Moved(Moved(s, w, r), w, r') == Moved(s, w, r')
  {
    assert s.reconciles[w := r][w := r'] == s.reconciles[w := r'];
  }

  lemma UpdateGoesThrough(s: State, w: nat)
    requires |s.history| > 0 && w < |s.reconciles| && s.reconciles[w].Fetched?
    requires s.cm.Some? && s.cm.value.version == s.reconciles[w].version
    ensures var r := s.reconciles[w];
            After(s, Update(w)) == Written(s, w, r.tc, r.tn, r.data)
  {
  }

  lemma WrittenAfterMoved(s: State, w: nat, r: Reconcile, tc: nat, tn: nat, data: NodeData)
    requires w < |s.reconciles| && |s.history| > 0
    ensures Written(Moved(s, w, r), w, tc, tn, data) == Written(s, w, tc, tn, data)
  {
    MovedTwice(s, w, r, Idle);
  }

  /** What `syncPtpConfig` does to the map, given what its node loop computes and which of its calls fail. */
  function Synced(cm: Option<ConfigMap>, version: nat, data: Outcome<NodeData>, getFails: bool,
                  updateFails: bool): Option<ConfigMap>
  {
    if data.Ok? && !getFails && cm.Some? && !updateFails then Some(ConfigMap(version, data.value)) else cm
  }

  /** The steps that `syncPtpConfig` takes. */
  function Syncing(w: nat, getFails: bool, updateFails: bool): seq<Action> {
    [Build(w), if getFails then Fail(w) else Fetch(w), if updateFails then Fail(w) else Update(w)]
  }

  /** With nothing in between, those steps write the whole map or give up, and leave the map that `Synced` says. */
  lemma SyncIsRun(s: State, w: nat, getFails: bool, updateFails: bool)
    requires w < |s.reconciles| && s.reconciles[w].ListedNodes?
            && s.reconciles[w].tc <= s.reconciles[w].tn < |s.history|
    ensures var r := s.reconciles[w];
            var data := AssignmentAt(s, r.tc, r.tn);
            && Run(s, Syncing(w, getFails, updateFails))
               == (if data.Ok? && !getFails && s.cm.Some? && !updateFails then Written(s, w, r.tc, r.tn, data.value)
                   else Moved(s, w, Idle))
            && Run(s, Syncing(w, getFails, updateFails)).cm == Synced(s.cm, s.nextVersion, data, getFails, updateFails)
  {
    hide Run, After, AssignmentAt;
    var second := if getFails then Fail(w) else Fetch(w);
    var third := if updateFails then Fail(w) else Update(w);
    RunThree(s, Build(w), second, third);
    var r := s.reconciles[w];
    var data, idle := AssignmentAt(s, r.tc, r.tn), Moved(s, w, Idle);
    if data.Ok? {
      BuildSucceeds(s, w, data.value);
      BuiltContinues(s, w, data.value, getFails, updateFails);
    } else {
      BuildFails(s, w);
      IdleStays(idle, w, second);
      IdleStays(idle, w, third);
    }
  }

  lemma BuiltContinues(s: State, w: nat, data: NodeData, getFails: bool, updateFails: bool)
    requires w < |s.reconciles| && s.reconciles[w].ListedNodes? && |s.history| > 0
    ensures var r := s.reconciles[w];
            var s1 := Moved(s, w, Built(r.tc, r.tn, data));
            After(After(s1, if getFails then Fail(w) else Fetch(w)), if updateFails then Fail(w) else Update(w))
            == if !getFails && s.cm.Some? && !updateFails then Written(s, w, r.tc, r.tn, data) else Moved(s, w, Idle)
  {
    hide After, Written;
    var r := s.reconciles[w];
    var s1, idle := Moved(s, w, Built(r.tc, r.tn, data)), Moved(s, w, Idle);
    MovedTwice(s, w, Built(r.tc, r.tn, data), Idle);
    if getFails || s.cm.None? {
      FailStep(s1, w);
      FetchStep(s1, w);
      IdleStays(idle, w, if updateFails then Fail(w) else Update(w));
    } else {
      FetchStep(s1, w);
      var fetched := Fetched(r.tc, r.tn, data, s.cm.value.version, s.cm.value.data);
      MovedTwice(s, w, Built(r.tc, r.tn, data), fetched);
      MovedTwice(s, w, fetched, Idle);
      var s2 := Moved(s, w, fetched);
      if updateFails {
        FailStep(s2, w);
      } else {
        UpdateGoesThrough(s2, w);
        WrittenAfterMoved(s, w, fetched, r.tc, r.tn, data);
      }
    }
  }

  /**
   Without serialisation the version check does not help: a reconcile that still has to
   build its map fetches the newest version and then puts its older snapshot over it,
   whatever has been written since it listed.
   */
  lemma LateFetchOverwritesNewer(s: State, w: nat, data: NodeData)
    requires w < |s.reconciles| && s.cm.Some?
    requires s.reconciles[w].ListedNodes? && AssignedAt(s, s.reconciles[w].tc, s.reconciles[w].tn, data)
    ensures Run(s, Writing(w)) == Written(s, w, s.reconciles[w].tc, s.reconciles[w].tn, data)
  {
    hide Run, AssignmentAt;
    SyncIsRun(s, w, false, false);
    assert Syncing(w, false, false) == Writing(w);
  }

  /** What a reconcile does when nothing comes between its steps. */
  ghost function QuietReconcile(s: State, w: nat): State
    requires |s.history| > 0
  {
    Run(s, Listing(w) + Writing(w))
  }

  /** A reconcile that nothing interferes with makes the map current, or leaves it alone if some node has no text. */
  lemma QuietReconcileConverges(s: State, w: nat)
    requires |s.history| > 0 && w < |s.reconciles| && s.reconciles[w].Idle? && s.cm.Some?
    ensures var now := s.Now();
            match AssignmentAt(s, now, now)
            case Ok(data) => QuietReconcile(s, w) == Written(s, w, now, now, data)
            case _ => QuietReconcile(s, w) == s
  {
    hide Run, AssignmentAt, Written;
    var now := s.Now();
    var listed := ListedNodes(now, now);
    RunAppend(s, Listing(w), Writing(w));
    BothListed(s, w);
    SameAssignment(s, Moved(s, w, listed), now, now);
    SyncIsRun(Moved(s, w, listed), w, false, false);
    assert Syncing(w, false, false) == Writing(w);
    MovedTwice(s, w, listed, Idle);
    match AssignmentAt(s, now, now)
    case Ok(data) => WrittenAfterMoved(s, w, listed, now, now, data);
    case _ => assert s.reconciles[w := Idle] == s.reconciles;
  }

  // ----- when the snapshots go backwards -----

  /** Reconcile `v` lists, the PtpConfigs are edited, `w` runs from start to end, and then `v` goes on. */
  function Overlapping(v: nat, w: nat, edited: seq<PtpConfig>): seq<Action> {
    Listing(v) + [EditConfigs(edited)] + (Listing(w) + Writing(w)) + Writing(v)
  }

  /** The state once `v` has listed and the PtpConfigs are edited. */
  function ListedThenEdited(s: State, v: nat, edited: seq<PtpConfig>): State
    requires |s.history| > 0 && v < |s.reconciles|
  {
    Moved(s, v, ListedNodes(s.Now(), s.Now())).(history := s.history + [World(edited, s.history[s.Now()].nodes)])
  }

  lemma OverlapInThree(s: State, v: nat, w: nat, edited: seq<PtpConfig>)
    requires |s.history| > 0 && v < |s.reconciles| && s.reconciles[v].Idle?
    ensures Run(s, Overlapping(v, w, edited)) == Run(QuietReconcile(ListedThenEdited(s, v, edited), w), Writing(v))
  {
    hide Run, AssignmentAt;
    RunAppend(s, Listing(v) + [EditConfigs(edited)] + (Listing(w) + Writing(w)), Writing(v));
    RunAppend(s, Listing(v) + [EditConfigs(edited)], Listing(w) + Writing(w));
    RunAppend(s, Listing(v), [EditConfigs(edited)]);
    BothListed(s, v);
    RunOne(Moved(s, v, ListedNodes(s.Now(), s.Now())), EditConfigs(edited));
  }

  lemma WrittenReads(s: State, w: nat, v: nat, tc: nat, tn: nat, data: NodeData)
    requires w < |s.reconciles| && v < |s.reconciles| && v != w && |s.history| > 0
    ensures var s' := Written(s, w, tc, tn, data);
            && s'.cm.Some? && s'.reconciles[v] == s.reconciles[v] && |s'.reconciles| == |s.reconciles|
            && s'.history == s.history && s'.encode == s.encode && s'.writes == s.writes + [Write(tc, tn, s.Now())]
  {
  }

  /** The overlapping run writes the newer map and then the older one. */
  lemma OverlapWritesOlderLast(s: State, v: nat, w: nat, edited: seq<PtpConfig>, older: NodeData, newer: NodeData)
    requires |s.history| > 0 && s.cm.Some? && v < |s.reconciles| && w < |s.reconciles| && v != w
    requires s.reconciles[v].Idle? && s.reconciles[w].Idle?
    requires AssignmentAt(s, s.Now(), s.Now()) == Ok(older)
    requires Assignment(s.encode, edited, s.history[s.Now()].nodes) == Ok(newer)
    ensures var now := s.Now();
            Run(s, Overlapping(v, w, edited))
            == Written(Written(ListedThenEdited(s, v, edited), w, now + 1, now + 1, newer), v, now, now, older)
  {
    hide Run, Assignment, QuietReconcile, Written;
    var now, s2 := s.Now(), ListedThenEdited(s, v, edited);
    OverlapInThree(s, v, w, edited);
    QuietReconcileConverges(s2, w);
    var s3 := Written(s2, w, now + 1, now + 1, newer);
    WrittenReads(s2, w, v, now + 1, now + 1, newer);
    SameAssignment(s, s3, now, now);
    LateFetchOverwritesNewer(s3, v, older);
  }

  /** Two overlapping reconciles suffice to make the stored map go back to an older snapshot. */
  lemma OverlapGoesBackwards(s: State, v: nat, w: nat, edited: seq<PtpConfig>)
    requires |s.history| > 0 && s.cm.Some? && v < |s.reconciles| && w < |s.reconciles| && v != w
    requires s.reconciles[v].Idle? && s.reconciles[w].Idle?
    requires AssignmentAt(s, s.Now(), s.Now()).Ok?
    requires Assignment(s.encode, edited, s.history[s.Now()].nodes).Ok?
    ensures var r := Run(s, Overlapping(v, w, edited));
            && !Forwards(r.writes)
            && r.cm.Some? && Ok(r.cm.value.data) == AssignmentAt(s, s.Now(), s.Now())
  {
    hide Run, Assignment, AssignmentAt, Forwards;
    var now := s.Now();
    var older, newer := AssignmentAt(s, now, now).value, Assignment(s.encode, edited, s.history[now].nodes).value;
    OverlapWritesOlderLast(s, v, w, edited, older, newer);
    TwoWritesBackwards(s.writes, Write(now + 1, now + 1, now + 1), Write(now, now, now + 1));
  }

  lemma TwoWritesBackwards(writes: seq<Write>, x: Write, y: Write)
    requires x.tn > y.tc
    ensures !Forwards(writes + [x] + [y])
  {
    var all, n := writes + [x] + [y], |writes|;
    assert all[n] == x && all[n + 1] == y;
  }

  /** The number of reconcilers is fixed. */
  lemma {:induction false} CountsStay(s: State, actions: seq<Action>)
    requires |s.history| > 0
    ensures |Run(s, actions).reconciles| == |s.reconciles| && |Run(s, actions).creating| == |s.creating|
  {
    if actions != [] {
      hide After;
      CountsStay(s, actions[..|actions| - 1]);
      StepKeepsCounts(Run(s, actions[..|actions| - 1]), actions[|actions| - 1]);
    }
  }

  lemma StepKeepsCounts(s: State, a: Action)
    requires |s.history| > 0
    ensures |After(s, a).reconciles| == |s.reconciles| && |After(s, a).creating| == |s.creating|
  {
    hide AssignmentAt;
  }

  /** Without an operator reconcile there is never a map to write to. */
  lemma {:induction false} NoOperatorNoWrites(s: State, actions: seq<Action>)
    requires Initial(s) && |s.creating| == 0
    ensures Run(s, actions).cm.None? && Run(s, actions).writes == []
  {
    hide AssignmentAt;
    if actions != [] {
      NoOperatorNoWrites(s, actions[..|actions| - 1]);
      CountsStay(s, actions[..|actions| - 1]);
    }
  }

  lemma LoneWorkerGoesForwards(s: State, actions: seq<Action>)
    requires Initial(s) && |s.reconciles| <= 1
    ensures Forwards(Run(s, actions).writes)
  {
    assert |s.history| == 1;
    hide Run, Initial;
    forall k | 0 <= k <= |actions| ensures Serial(Run(s, actions[..k])) {
      CountsStay(s, actions[..k]);
    }
    SerialRunsGoForwards(s, actions);
  }

  /**
   From any initial state: no nodes, so that every map can be computed, and an operator reconcile
   that creates the map.
  */
  function Preparing(): seq<Action> {
    [ChangeNodes([]), OperatorGet(0), OperatorCreate(0)]
  }

  lemma OperatorCreates(s: State, o: nat)
    requires |s.history| > 0 && o < |s.creating| && s.cm.None?
    ensures After(After(s, OperatorGet(o)), OperatorCreate(o))
            == s.(creating := s.creating[o := false], cm := Some(ConfigMap(s.nextVersion, map[])),
                nextVersion := s.nextVersion + 1)
  {
    var s1 := After(s, OperatorGet(o));
    assert s1 == s.(creating := s.creating[o := true]);
    assert s1.creating[o := false] == s.creating[o := false];
  }

  lemma Prepared(s: State)
    requires Initial(s) && |s.creating| > 0
    ensures var r := Run(s, Preparing());
            && r.cm.Some? && r.reconciles == s.reconciles && |r.history| == 2 && r.history[1].nodes == []
  {
    RunThree(s, ChangeNodes([]), OperatorGet(0), OperatorCreate(0));
    var s1 := s.(history := s.history + [World(s.history[s.Now()].configs, [])]);
    assert After(s, ChangeNodes([])) == s1;
    hide Run, After;
    OperatorCreates(s1, 0);
  }

  lemma TwoWorkersGoBackwards(s: State)
    requires Initial(s) && |s.creating| > 0 && |s.reconciles| >= 2
    ensures !Forwards(Run(s, Preparing() + Overlapping(0, 1, [])).writes)
  {
    Prepared(s);
    RunAppend(s, Preparing(), Overlapping(0, 1, []));
    hide Run;
    OverlapGoesBackwards(Run(s, Preparing()), 0, 1, []);
  }

  /**
   Exactly when the snapshots behind the stored map never go backwards, in any run: with at
   most one PtpConfig reconcile at a time, or without an operator reconcile to create the map.
   */
  lemma ForwardsIff(s: State)
    requires Initial(s)
    ensures (forall actions :: Forwards(Run(s, actions).writes)) <==> |s.reconciles| <= 1 || |s.creating| == 0
  {
    assert |s.history| == 1;
    hide Run, Initial, Forwards;
    if |s.reconciles| <= 1 {
      forall actions ensures Forwards(Run(s, actions).writes) {
        LoneWorkerGoesForwards(s, actions);
      }
    } else if |s.creating| == 0 {
      forall actions ensures Forwards(Run(s, actions).writes) {
        NoOperatorNoWrites(s, actions);
        NoWritesForwards();
      }
    } else {
      TwoWorkersGoBackwards(s);
    }
  }

  lemma NoWritesForwards()
    ensures Forwards([])
  {
  }

  // ----- the code -----

  /** The API server's copy of the map. An update is accepted only for the version it was read at. */
  class ApiServer {
    var cm: Option<ConfigMap>
    var nextVersion: nat

    constructor (existing: Option<ConfigMap>, next: nat)
      ensures cm == existing && nextVersion == next
    {
      cm, nextVersion := existing, next;
    }

    method Update(changed: ConfigMap, fails: bool) returns (stored: Option<ConfigMap>)
      modifies this
      ensures stored.Some? <==> !fails && old(cm).Some? && old(cm).value.version == changed.version
      ensures stored.Some? ==>
                stored == cm == Some(ConfigMap(old(nextVersion), changed.data)) && nextVersion == old(nextVersion) + 1
      ensures stored.None? ==> cm == old(cm) && nextVersion == old(nextVersion)
    {
      if fails || cm.None? || cm.value.version != changed.version {
        return None;
      }
      cm := Some(ConfigMap(nextVersion, changed.data));
      nextVersion := nextVersion + 1;
      return cm;
    }
  }

  /** `syncPtpConfig` with nothing between its calls: it replaces the whole data, or nothing. */
  method SyncPtpConfig(api: ApiServer, encode: Encoder, cfgs: seq<PtpConfig>, nodes: seq<Node>, getFails: bool,
                       updateFails: bool)
    returns (r: Outcome<ConfigMap>)
    modifies api
    ensures api.cm == Synced(old(api.cm), old(api.nextVersion), Assignment(encode, cfgs, nodes), getFails, updateFails)
    ensures r.Panic? <==> Assignment(encode, cfgs, nodes).Panic?
    ensures r.Ok? <==> Assignment(encode, cfgs, nodes).Ok? && !getFails && old(api.cm).Some? && !updateFails
    ensures r.Ok? ==> api.cm == Some(r.value)
  {
    hide Assignment;
    var data := BuildNodeMap(encode, cfgs, nodes);
    if !data.Ok? {
      return if data.Panic? then Panic else Err;
    }
    var cm := if getFails then None else api.cm;
    if cm.None? {
      return Err;
    }
    var stored := api.Update(cm.value.(data := data.value), updateFails);
    return if stored.Some? then Ok(stored.value) else Err;
  }
}

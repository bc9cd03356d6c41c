/**
 The operator reconciler (`controllers/ptpoperatorconfig_controller.go`) call by call: every
 Get, Create and List is one step, interleaved with other reconciles and with everybody else.
 */
module OperatorProtocol {
  import opened Prelude
  import opened PtpTypes
  import opened OperatorSync

  /** What the reconciler creates if it is absent. */
  datatype Thing = ConfigThing | DeviceThing(name: string) | PtpMapThing | LeapMapThing

  predicate Has(o: Objects, t: Thing) {
    match t
    case ConfigThing => o.operatorConfig.Some?
    case DeviceThing(n) => n in o.devices
    case PtpMapThing => o.ptpMap.Some?
    case LeapMapThing => o.leapMap.Some?
  }

  /** The object is there before and after, with the same contents. */
  predicate Same(o: Objects, o': Objects, t: Thing) {
    && Has(o, t) && Has(o', t)
    && match t
       case ConfigThing => o'.operatorConfig == o.operatorConfig
       case DeviceThing(n) => o'.devices[n] == o.devices[n]
       case PtpMapThing => o'.ptpMap == o.ptpMap
       case LeapMapThing => o'.leapMap == o.leapMap
  }

  /** A Create: it adds an empty object, or fails because there is one. */
  function Created(o: Objects, t: Thing): Objects {
    if Has(o, t) then o
    else
      match t
      case ConfigThing => o.(operatorConfig := Some(map[]))
      case DeviceThing(n) => o.(devices := o.devices[n := EMPTY_DEVICE])
      case PtpMapThing => o.(ptpMap := Some(map[]))
      case LeapMapThing => o.(leapMap := Some(map[]))
  }

  /** What a reconcile that has listed the nodes looks after, in its order. */
  function Todo(names: seq<string>): (todo: seq<Thing>)
    ensures |todo| == |names| + 2
  {
    seq(|names|, i requires 0 <= i < |names| => DeviceThing(names[i])) + [PtpMapThing, LeapMapThing]
  }

  /** How far a reconcile has come; `since` is the time of its first call. */
  datatype Phase =
    | Resting
    | NoConfig                                            // next: create the operator config, and return
    | Configured(since: nat)                              // next: list the nodes
    | Looking(since: nat, names: seq<string>, done: nat)  // next: get the object at `done`
    | Missing(since: nat, names: seq<string>, done: nat)  // next: create the object at `done`

  /** A reconcile that came to the end of its list without an error. */
  datatype Finish = Finish(since: nat, at: nat, names: seq<string>)

  datatype State = State(
    history: seq<Objects>,
    nodes: seq<Node>,
    phases: seq<Phase>,
    finished: seq<Finish>,
    creates: nat,           // devices created so far
    removals: nat)          // devices that others removed so far
  {
    function Now(): int { |history| - 1 }
  }

  datatype Action =
    | GetConfig(w: nat)
    | CreateConfig(w: nat)
    | ListNodes(w: nat)
    | Get(w: nat)
    | Create(w: nat)
    | Fail(w: nat)
    | ChangeNodes(nodes: seq<Node>)
    | Others(objects: Objects)

  function Objs(s: State): Objects
    requires |s.history| > 0
  {
    s.history[s.Now()]
  }

  /** The next phase once the object at `done` is there. */
  function Onward(s: State, w: nat, since: nat, names: seq<string>, done: nat): State
    requires w < |s.phases| && |s.history| > 0
  {
    if done + 1 < |Todo(names)| then s.(phases := s.phases[w := Looking(since, names, done + 1)])
    else s.(phases := s.phases[w := Resting], finished := s.finished + [Finish(since, s.Now(), names)])
  }

  function WithPhase(s: State, w: nat, p: Phase): State
    requires w < |s.phases|
  {
    s.(phases := s.phases[w := p])
  }

  /** The objects change, and time goes on. */
  function WithObjects(s: State, o: Objects): State
    requires |s.history| > 0
  {
    s.(history := s.history + [o])
  }

  /** The steps of one reconcile. */
  function ReconcileStep(s: State, a: Action, w: nat): (r: State)
    requires w < |s.phases| && |s.history| > 0
    ensures s.history <= r.history
  {
    var p, o := s.phases[w], Objs(s);
    match a
    case GetConfig(_) =>
      if p.Resting? then WithPhase(s, w, if Has(o, ConfigThing) then Configured(s.Now()) else NoConfig) else s
    case CreateConfig(_) =>
      if p.NoConfig? then WithPhase(WithObjects(s, Created(o, ConfigThing)), w, Resting) else s
    case ListNodes(_) =>
      if p.Configured? then WithPhase(s, w, Looking(p.since, NamesOf(s.nodes), 0)) else s
    case Get(_) =>
      if p.Looking? && p.done < |Todo(p.names)| then
        if Has(o, Todo(p.names)[p.done]) then Onward(s, w, p.since, p.names, p.done)
        else WithPhase(s, w, Missing(p.since, p.names, p.done))
      else s
    case Create(_) =>
      if p.Missing? && p.done < |Todo(p.names)| then
        var t := Todo(p.names)[p.done];
        if Has(o, t) then WithPhase(s, w, Resting)    // somebody else was faster: the create fails
        else
          Onward(WithObjects(s, Created(o, t)).(creates := s.creates + if t.DeviceThing? then 1 else 0),
                 w, p.since, p.names, p.done)
      else s
    case _ => WithPhase(s, w, Resting)
  }

  /** One step; an action that is not enabled changes nothing. */
  function After(s: State, a: Action): (r: State)
    requires |s.history| > 0
    ensures |r.history| > 0
  {
    match a
    case ChangeNodes(nodes) => s.(nodes := nodes)
    case Others(o) => WithObjects(s, o).(removals := s.removals + |Objs(s).devices.Keys - o.devices.Keys|)
    case _ => if a.w < |s.phases| then ReconcileStep(s, a, a.w) else s
  }

  function Run(s: State, actions: seq<Action>): (r: State)
    requires |s.history| > 0
    ensures |r.history| > 0
  {
    if actions == [] then s else After(Run(s, actions[..|actions| - 1]), actions[|actions| - 1])
  }

  ghost predicate Initial(s: State) {
    && |s.history| == 1 && s.finished == [] && s.creates == s.removals == 0
    && forall w :: 0 <= w < |s.phases| ==> s.phases[w].Resting?
  }

  /** What the others do: any objects can become any others, and the nodes can change. */
  lemma OthersAct(s: State, o: Objects, nodes: seq<Node>)
    requires |s.history| > 0
    ensures After(s, Others(o)).history == s.history + [o] && After(s, Others(o)).phases == s.phases
    ensures After(s, ChangeNodes(nodes)).nodes == nodes && After(s, ChangeNodes(nodes)).history == s.history
    ensures After(s, ChangeNodes(nodes)).phases == s.phases
  {
  }

  // ----- nothing is overwritten or deleted -----

  /** A step of the operator leaves every object as it is, and adds at most one empty object. */
  lemma OperatorOnlyCreates(s: State, a: Action)
    requires |s.history| > 0 && !a.Others?
    ensures var o, o' := Objs(s), Objs(After(s, a));
            && (forall t :: Has(o, t) ==> Same(o, o', t))
            && (o' == o || exists t :: !Has(o, t) && o' == Created(o, t))
  {
  }

  /** Others leave object `t` alone. */
  ghost predicate Spares(s: State, a: Action, t: Thing)
    requires |s.history| > 0
  {
    a.Others? && Has(Objs(s), t) ==> Same(Objs(s), a.objects, t)
  }

  ghost predicate SparingRun(s: State, actions: seq<Action>, t: Thing)
    requires |s.history| > 0
  {
    forall i :: 0 <= i < |actions| ==> Spares(Run(s, actions[..i]), actions[i], t)
  }

  /** In any interleaving, an object that the others leave alone stays, with the contents it had. */
  lemma {:induction false} RunSpares(s: State, actions: seq<Action>, t: Thing)
    requires |s.history| > 0 && Has(Objs(s), t) && SparingRun(s, actions, t)
    ensures Same(Objs(s), Objs(Run(s, actions)), t)
  {
    if actions != [] {
      hide After, Same, Has, Spares;
      var init, last := actions[..|actions| - 1], actions[|actions| - 1];
      forall i | 0 <= i < |init| ensures Spares(Run(s, init[..i]), init[i], t) {
        assert init[..i] == actions[..i];
      }
      RunSpares(s, init, t);
      assert actions[..|actions| - 1] == init;
      StepSpares(Run(s, init), last, t);
      SameOnward(Objs(s), Objs(Run(s, init)), Objs(Run(s, actions)), t);
    } else {
      assert Same(Objs(s), Objs(s), t);
    }
  }

  lemma StepSpares(s: State, a: Action, t: Thing)
    requires |s.history| > 0 && Has(Objs(s), t) && Spares(s, a, t)
    ensures Same(Objs(s), Objs(After(s, a)), t)
  {
    hide Has, Same;
    if !a.Others? {
      OperatorOnlyCreates(s, a);
    }
  }

  lemma SameOnward(o0: Objects, o1: Objects, o2: Objects, t: Thing)
    requires Same(o0, o1, t) && Same(o1, o2, t)
    ensures Same(o0, o2, t)
  {
  }

  /** Everything the operator creates for these nodes stays, if the others leave it alone. */
  lemma CompleteStays(s: State, actions: seq<Action>, names: seq<string>)
    requires |s.history| > 0 && Complete(Objs(s), names)
    requires SparingRun(s, actions, ConfigThing)
    requires forall t :: t in Todo(names) ==> SparingRun(s, actions, t)
    ensures Complete(Objs(Run(s, actions)), names)
  {
    hide Run, SparingRun;
    var todo := Todo(names);
    RunSpares(s, actions, ConfigThing);
    assert todo[|names|] == PtpMapThing && todo[|names| + 1] == LeapMapThing;
    RunSpares(s, actions, PtpMapThing);
    RunSpares(s, actions, LeapMapThing);
    forall n | n in names ensures n in Objs(Run(s, actions)).devices {
      var i :| 0 <= i < |names| && names[i] == n;
      assert todo[i] == DeviceThing(n);
      RunSpares(s, actions, DeviceThing(n));
    }
  }

  /** An object as the operator creates it. */
  predicate IsEmpty(o: Objects, t: Thing) {
    match t
    case ConfigThing => o.operatorConfig == Some(map[])
    case DeviceThing(n) => n in o.devices && o.devices[n].status == ""
    case PtpMapThing => o.ptpMap == Some(map[])
    case LeapMapThing => o.leapMap == Some(map[])
  }

  /** An object that was there is untouched, and one that was not is as the operator creates it. */
  predicate OnlyMade(o: Objects, o': Objects, t: Thing) {
    if Has(o, t) then Same(o, o', t) else Has(o', t) ==> IsEmpty(o', t)
  }

  /** However many reconciles run at once, they overwrite nothing, and what they add is empty. */
  lemma {:induction false} RunOnlyCreates(s: State, actions: seq<Action>, t: Thing)
    requires |s.history| > 0 && forall i :: 0 <= i < |actions| ==> !actions[i].Others?
    ensures OnlyMade(Objs(s), Objs(Run(s, actions)), t)
  {
    hide After, OnlyMade, Objs;
    if actions == [] {
      NothingMade(Objs(s), t);
    } else {
      var init := actions[..|actions| - 1];
      RunOnlyCreates(s, init, t);
      StepOnlyMakes(Run(s, init), actions[|actions| - 1], t);
      MadeOnward(Objs(s), Objs(Run(s, init)), Objs(Run(s, actions)), t);
    }
  }

  lemma NothingMade(o: Objects, t: Thing)
    ensures OnlyMade(o, o, t)
  {
  }

  lemma MadeOnward(o: Objects, o1: Objects, o2: Objects, t: Thing)
    requires OnlyMade(o, o1, t) && OnlyMade(o1, o2, t)
    ensures OnlyMade(o, o2, t)
  {
  }

  lemma StepOnlyMakes(s: State, a: Action, t: Thing)
    requires |s.history| > 0 && !a.Others?
    ensures OnlyMade(Objs(s), Objs(After(s, a)), t)
  {
    OperatorOnlyCreates(s, a);
    hide After;
  }

  // ----- a reconcile that finishes has seen everything -----

  /** The object was there at some time between the two. */
  ghost predicate SeenBetween(history: seq<Objects>, since: nat, at: nat, t: Thing) {
    exists j: nat :: since <= j <= at < |history| && Has(history[j], t)
  }

  ghost predicate SeenAll(history: seq<Objects>, since: nat, at: nat, todo: seq<Thing>) {
    forall k :: 0 <= k < |todo| ==> SeenBetween(history, since, at, todo[k])
  }

  ghost predicate PhaseOk(s: State, p: Phase)
    requires |s.history| > 0
  {
    match p
    case Resting => true
    case NoConfig => true
    case Configured(since) => since < |s.history|
    case Looking(since, names, done) =>
      since < |s.history| && done < |Todo(names)| && SeenAll(s.history, since, s.Now(), Todo(names)[..done])
    case Missing(since, names, done) =>
      since < |s.history| && done < |Todo(names)| && SeenAll(s.history, since, s.Now(), Todo(names)[..done])
  }

  ghost predicate FinishOk(s: State, f: Finish) {
    f.since <= f.at < |s.history| && SeenAll(s.history, f.since, f.at, Todo(f.names))
  }

  ghost predicate Invariant(s: State) {
    && |s.history| > 0
    && (forall w :: 0 <= w < |s.phases| ==> PhaseOk(s, s.phases[w]))
    && (forall k :: 0 <= k < |s.finished| ==> FinishOk(s, s.finished[k]))
  }

  lemma SeenLater(history: seq<Objects>, history': seq<Objects>, since: nat, at: nat, at': nat, todo: seq<Thing>)
    requires SeenAll(history, since, at, todo) && history <= history' && at <= at' < |history'|
    ensures SeenAll(history', since, at', todo)
  {
    forall k | 0 <= k < |todo| ensures SeenBetween(history', since, at', todo[k]) {
      assert SeenBetween(history, since, at, todo[k]);
      var j: nat :| since <= j <= at < |history| && Has(history[j], todo[k]);
      assert history'[j] == history[j];
    }
  }

  lemma PhaseStaysOk(s: State, s': State, p: Phase)
    requires |s.history| > 0 && s.history <= s'.history && PhaseOk(s, p)
    ensures PhaseOk(s', p)
  {
    hide SeenAll, Todo;
    if p.Looking? || p.Missing? {
      SeenLater(s.history, s'.history, p.since, s.Now(), s'.Now(), Todo(p.names)[..p.done]);
    }
  }

  lemma FinishStaysOk(s: State, s': State, f: Finish)
    requires s.history <= s'.history && FinishOk(s, f)
    ensures FinishOk(s', f)
  {
    hide SeenAll, Todo;
    SeenLater(s.history, s'.history, f.since, f.at, f.at, Todo(f.names));
  }

  /** Whatever changes, the past stays, and the others' reconciles are where they were. */
  lemma UnchangedKeepsInvariant(s: State, s': State)
    requires Invariant(s) && s.history <= s'.history && |s'.phases| == |s.phases| && s.finished <= s'.finished
    requires forall w :: 0 <= w < |s.phases| ==> s'.phases[w] == s.phases[w] || PhaseOk(s', s'.phases[w])
    requires forall k :: |s.finished| <= k < |s'.finished| ==> FinishOk(s', s'.finished[k])
    ensures Invariant(s')
  {
    hide PhaseOk, FinishOk;
    forall w | 0 <= w < |s'.phases| ensures PhaseOk(s', s'.phases[w]) {
      if s'.phases[w] == s.phases[w] {
        PhaseStaysOk(s, s', s.phases[w]);
      }
    }
    forall k | 0 <= k < |s'.finished| ensures FinishOk(s', s'.finished[k]) {
      if k < |s.finished| {
        FinishStaysOk(s, s', s.finished[k]);
      }
    }
  }

  /** Going on from an object that is there now. */
  lemma OnwardKeepsInvariant(s: State, w: nat, since: nat, names: seq<string>, done: nat)
    requires Invariant(s) && w < |s.phases| && since < |s.history| && done < |Todo(names)|
    requires SeenAll(s.history, since, s.Now(), Todo(names)[..done]) && Has(Objs(s), Todo(names)[done])
    ensures Invariant(Onward(s, w, since, names, done))
  {
    hide PhaseOk, FinishOk, Has;
    var s', todo := Onward(s, w, since, names, done), Todo(names);
    assert SeenBetween(s.history, since, s.Now(), todo[done]);
    SeenOneMore(s.history, since, s.Now(), todo, done);
    hide SeenAll, SeenBetween;
    if done + 1 == |todo| {
      assert todo[..done + 1] == todo;
      assert FinishOk(s', Finish(since, s.Now(), names)) by {
        FinishIs(s', since, s.Now(), names);
      }
      assert PhaseOk(s', Resting) by { RestingIsOk(s'); }
    } else {
      LookingIsOk(s', since, names, done + 1);
    }
    UnchangedKeepsInvariant(s, s');
  }

  lemma SeenOneMore(history: seq<Objects>, since: nat, at: nat, todo: seq<Thing>, done: nat)
    requires done < |todo| && SeenAll(history, since, at, todo[..done]) && SeenBetween(history, since, at, todo[done])
    ensures SeenAll(history, since, at, todo[..done + 1])
  {
    hide SeenBetween;
    assert todo[..done + 1] == todo[..done] + [todo[done]];
  }

  lemma FinishIs(s: State, since: nat, at: nat, names: seq<string>)
    requires since <= at < |s.history| && SeenAll(s.history, since, at, Todo(names))
    ensures FinishOk(s, Finish(since, at, names))
  {
  }

  lemma RestingIsOk(s: State)
    requires |s.history| > 0
    ensures PhaseOk(s, Resting) && PhaseOk(s, NoConfig)
  {
  }

  lemma LookingIsOk(s: State, since: nat, names: seq<string>, done: nat)
    requires since < |s.history| && done < |Todo(names)| && SeenAll(s.history, since, s.Now(), Todo(names)[..done])
    ensures PhaseOk(s, Looking(since, names, done)) && PhaseOk(s, Missing(since, names, done))
  {
  }

  lemma PhaseKeepsInvariant(s: State, w: nat, p: Phase)
    requires Invariant(s) && w < |s.phases| && PhaseOk(s, p)
    ensures Invariant(WithPhase(s, w, p))
  {
    hide PhaseOk, FinishOk;
    PhaseStaysOk(s, WithPhase(s, w, p), p);
    UnchangedKeepsInvariant(s, WithPhase(s, w, p));
  }

  lemma ObjectsKeepInvariant(s: State, s': State)
    requires Invariant(s) && s.history <= s'.history && s'.phases == s.phases && s'.finished == s.finished
    ensures Invariant(s')
  {
    hide PhaseOk, FinishOk;
    UnchangedKeepsInvariant(s, s');
  }

  lemma ReconcileKeepsInvariant(s: State, a: Action, w: nat)
    requires Invariant(s) && w < |s.phases|
    ensures Invariant(ReconcileStep(s, a, w))
  {
    var p := s.phases[w];
    assert PhaseOk(s, p);
    RestingIsOk(s);
    hide Invariant, FinishOk, Has, Created, WithPhase, WithObjects, Onward, Todo, SeenAll;
    match a
    case GetConfig(_) =>
      if p.Resting? {
        assert PhaseOk(s, Configured(s.Now()));
        PhaseKeepsInvariant(s, w, if Has(Objs(s), ConfigThing) then Configured(s.Now()) else NoConfig);
      }
    case CreateConfig(_) =>
      if p.NoConfig? {
        CreatedKeepsInvariant(s, w, Created(Objs(s), ConfigThing));
      }
    case ListNodes(_) =>
      if p.Configured? {
        NothingSeen(s, p.since, NamesOf(s.nodes));
        PhaseKeepsInvariant(s, w, Looking(p.since, NamesOf(s.nodes), 0));
      }
    case Get(_) =>
      if p.Looking? {
        if Has(Objs(s), Todo(p.names)[p.done]) {
          OnwardKeepsInvariant(s, w, p.since, p.names, p.done);
        } else {
          LookingIsOk(s, p.since, p.names, p.done);
          PhaseKeepsInvariant(s, w, Missing(p.since, p.names, p.done));
        }
      }
    case Create(_) =>
      if p.Missing? {
        if Has(Objs(s), Todo(p.names)[p.done]) {
          PhaseKeepsInvariant(s, w, Resting);
        } else {
          MadeKeepsInvariant(s, w);
        }
      }
    case _ => PhaseKeepsInvariant(s, w, Resting);
  }

  lemma CreatedKeepsInvariant(s: State, w: nat, o: Objects)
    requires Invariant(s) && w < |s.phases|
    ensures Invariant(WithPhase(WithObjects(s, o), w, Resting))
  {
    hide PhaseOk, FinishOk;
    ObjectsKeepInvariant(s, WithObjects(s, o));
    RestingIsOk(WithObjects(s, o));
    PhaseKeepsInvariant(WithObjects(s, o), w, Resting);
  }

  lemma NothingSeen(s: State, since: nat, names: seq<string>)
    requires since < |s.history|
    ensures PhaseOk(s, Looking(since, names, 0))
  {
  }

  lemma MadeKeepsInvariant(s: State, w: nat)
    requires Invariant(s) && w < |s.phases| && s.phases[w].Missing?
    requires !Has(Objs(s), Todo(s.phases[w].names)[s.phases[w].done])
    ensures Invariant(ReconcileStep(s, Create(w), w))
  {
    var p := s.phases[w];
    assert PhaseOk(s, p);
    var t := Todo(p.names)[p.done];
    var s1 := WithObjects(s, Created(Objs(s), t)).(creates := s.creates + if t.DeviceThing? then 1 else 0);
    assert Has(Objs(s1), t);
    hide PhaseOk, FinishOk, Has, Created, Todo, SeenAll;
    ObjectsKeepInvariant(s, s1);
    PhaseStaysOk(s, s1, p);
    MissingIs(s1, p);
    OnwardKeepsInvariant(s1, w, p.since, p.names, p.done);
  }

  lemma MissingIs(s: State, p: Phase)
    requires |s.history| > 0 && p.Missing? && PhaseOk(s, p)
    ensures p.since < |s.history| && p.done < |Todo(p.names)|
            && SeenAll(s.history, p.since, s.Now(), Todo(p.names)[..p.done])
  {
  }

  lemma StepKeepsInvariant(s: State, a: Action)
    requires Invariant(s)
    ensures Invariant(After(s, a))
  {
    hide PhaseOk, FinishOk, ReconcileStep;
    match a
    case ChangeNodes(nodes) => ObjectsKeepInvariant(s, After(s, a));
    case Others(o) => ObjectsKeepInvariant(s, After(s, a));
    case _ =>
      if a.w < |s.phases| {
        ReconcileKeepsInvariant(s, a, a.w);
      }
  }

  lemma {:induction false} RunKeepsInvariant(s: State, actions: seq<Action>)
    requires Invariant(s)
    ensures Invariant(Run(s, actions))
  {
    if actions != [] {
      hide Invariant, After;
      RunKeepsInvariant(s, actions[..|actions| - 1]);
      StepKeepsInvariant(Run(s, actions[..|actions| - 1]), actions[|actions| - 1]);
    }
  }

  /**
   Every reconcile that ends without an error found or made a device for each node it listed,
   and both maps, at some time while it was under way.
   */
  lemma FinishedSawAll(s: State, actions: seq<Action>, f: Finish)
    requires Initial(s) && f in Run(s, actions).finished
    ensures var r := Run(s, actions);
            && f.since <= f.at < |r.history|
            && (forall n :: n in f.names ==> SeenBetween(r.history, f.since, f.at, DeviceThing(n)))
            && SeenBetween(r.history, f.since, f.at, PtpMapThing) && SeenBetween(r.history, f.since, f.at, LeapMapThing)
  {
    RunKeepsInvariant(s, actions);
    hide Run, SeenBetween;
    var r, todo := Run(s, actions), Todo(f.names);
    assert FinishOk(r, f);
    forall n | n in f.names ensures SeenBetween(r.history, f.since, f.at, DeviceThing(n)) {
      var i :| 0 <= i < |f.names| && f.names[i] == n;
      assert todo[i] == DeviceThing(n);
    }
    assert todo[|f.names|] == PtpMapThing && todo[|f.names| + 1] == LeapMapThing;
  }

  // ----- how many devices are created -----

  /** All names that were ever listed, or are about to be. */
  ghost predicate NamesWithin(s: State, all: set<string>) {
    && (forall n :: n in NamesOf(s.nodes) ==> n in all)
    && (forall w :: 0 <= w < |s.phases| && (s.phases[w].Looking? || s.phases[w].Missing?) ==>
          forall n :: n in s.phases[w].names ==> n in all)
  }

  ghost predicate ListsWithin(actions: seq<Action>, all: set<string>) {
    forall a :: a in actions && a.ChangeNodes? ==> forall n :: n in NamesOf(a.nodes) ==> n in all
  }

  lemma ListsWithinParts(init: seq<Action>, last: Action, all: set<string>)
    requires ListsWithin(init + [last], all)
    ensures ListsWithin(init, all) && ListsWithin([last], all)
  {
    hide NamesOf;
    assert forall a :: a in init || a in [last] ==> a in init + [last];
  }

  function LackingOf(o: Objects, all: set<string>): set<string> {
    all - o.devices.Keys
  }

  lemma NamesStayWithin(s: State, a: Action, all: set<string>)
    requires |s.history| > 0 && NamesWithin(s, all) && ListsWithin([a], all)
    ensures NamesWithin(After(s, a), all)
  {
    hide Has, Created, Todo, NamesOf;
    assert a in [a];
    match a
    case ChangeNodes(_) =>
    case Others(_) =>
    case _ =>
      if a.w < |s.phases| {
        NamesOnlyListed(s, a, a.w);
      }
  }

  lemma NamesOnlyListed(s: State, a: Action, w: nat)
    requires |s.history| > 0 && w < |s.phases|
    ensures var s', p := ReconcileStep(s, a, w), s.phases[w];
            && s'.nodes == s.nodes && |s'.phases| == |s.phases|
            && (forall v :: 0 <= v < |s.phases| && v != w ==> s'.phases[v] == s.phases[v])
            && (s'.phases[w].Looking? || s'.phases[w].Missing? ==>
                  || s'.phases[w].names == NamesOf(s.nodes)
                  || ((p.Looking? || p.Missing?) && s'.phases[w].names == p.names))
  {
    hide Has, Created, Todo, NamesOf;
  }

  /** A device that is created was lacking. */
  lemma CreateTakesOneLacking(s: State, w: nat, all: set<string>)
    requires |s.history| > 0 && w < |s.phases| && NamesWithin(s, all)
    ensures var s' := ReconcileStep(s, Create(w), w);
            && s'.removals == s.removals
            && s'.creates + |LackingOf(Objs(s'), all)| == s.creates + |LackingOf(Objs(s), all)|
  {
    var s', p := ReconcileStep(s, Create(w), w), s.phases[w];
    CreateMakes(s, w);
    hide ReconcileStep;
    if s'.creates != s.creates {
      var n := p.names[p.done];
      assert n in all;
      assert LackingOf(Objs(s), all) == LackingOf(Objs(s'), all) + {n};
    }
  }

  lemma CreateMakes(s: State, w: nat)
    requires |s.history| > 0 && w < |s.phases|
    ensures var s', p := ReconcileStep(s, Create(w), w), s.phases[w];
            && s'.removals == s.removals
            && if s'.creates == s.creates then Objs(s').devices == Objs(s).devices
               else
                 && p.Missing? && p.done < |p.names| && s'.creates == s.creates + 1
                 && p.names[p.done] !in Objs(s).devices
                 && Objs(s').devices == Objs(s).devices[p.names[p.done] := EMPTY_DEVICE]
  {
  }

  lemma OtherStepsCreateNothing(s: State, a: Action)
    requires |s.history| > 0 && !a.Others? && !a.Create?
    ensures var s' := After(s, a);
            s'.removals == s.removals && s'.creates == s.creates && Objs(s').devices == Objs(s).devices
  {
    hide Todo;
  }

  lemma OthersMakeLack(s: State, o: Objects, all: set<string>)
    requires |s.history| > 0
    ensures var s' := After(s, Others(o));
            s'.creates == s.creates && |LackingOf(Objs(s'), all)| + s.removals
                <= |LackingOf(Objs(s), all)| + s'.removals
  {
    var lacking, lacking' := LackingOf(Objs(s), all), LackingOf(o, all);
    var removed := Objs(s).devices.Keys - o.devices.Keys;
    SubsetIsSmaller(lacking', lacking + removed);
    assert |lacking + removed| == |lacking| + |removed| - |lacking * removed|;
  }

  /** One step: what it creates was lacking, and only others make more devices lack. */
  lemma CreateStep(s: State, a: Action, all: set<string>)
    requires |s.history| > 0 && NamesWithin(s, all)
    ensures var s' := After(s, a);
            s'.creates + |LackingOf(Objs(s'), all)| + s.removals <= s.creates + |LackingOf(Objs(s), all)| + s'.removals
  {
    if a.Others? {
      hide After;
      OthersMakeLack(s, a.objects, all);
    } else if a.Create? {
      if a.w < |s.phases| {
        hide ReconcileStep;
        CreateTakesOneLacking(s, a.w, all);
      }
    } else {
      hide After;
      OtherStepsCreateNothing(s, a);
    }
  }

  /**
   However the steps are interleaved, the operator creates no more devices than were lacking
   for the nodes that are ever listed, plus those that others removed.
   */
  lemma {:induction false} RunCreatesAtMostLacking(s: State, actions: seq<Action>, all: set<string>)
    requires Initial(s) && NamesWithin(s, all) && ListsWithin(actions, all)
    ensures var r := Run(s, actions);
            && NamesWithin(r, all)
            && r.creates + |LackingOf(Objs(r), all)| <= |LackingOf(Objs(s), all)| + r.removals
  {
    if actions != [] {
      hide After, NamesWithin, Initial, LackingOf, ListsWithin, Objs;
      var init, last := actions[..|actions| - 1], actions[|actions| - 1];
      assert actions == init + [last];
      ListsWithinParts(init, last, all);
      RunCreatesAtMostLacking(s, init, all);
      NamesStayWithin(Run(s, init), last, all);
      CreateStep(Run(s, init), last, all);
    }
  }

  lemma StepMakesListed(s: State, a: Action, all: set<string>)
    requires |s.history| > 0 && NamesWithin(s, all) && !a.Others?
    ensures Objs(After(s, a)).devices.Keys <= Objs(s).devices.Keys + all
  {
    if a.Create? {
      if a.w < |s.phases| && s.phases[a.w].Missing? && s.phases[a.w].done < |s.phases[a.w].names| {
        var p := s.phases[a.w];
        assert Todo(p.names)[p.done] == DeviceThing(p.names[p.done]) && p.names[p.done] in all;
      }
    } else {
      hide After;
      OtherStepsCreateNothing(s, a);
    }
  }

  /** The operator makes no device for a node that is never listed. */
  lemma {:induction false} RunMakesListed(s: State, actions: seq<Action>, all: set<string>)
    requires |s.history| > 0 && NamesWithin(s, all) && ListsWithin(actions, all)
    requires forall i :: 0 <= i < |actions| ==> !actions[i].Others?
    ensures NamesWithin(Run(s, actions), all)
    ensures Objs(Run(s, actions)).devices.Keys <= Objs(s).devices.Keys + all
  {
    if actions != [] {
      hide After, NamesWithin, ListsWithin, Objs;
      var init, last := actions[..|actions| - 1], actions[|actions| - 1];
      assert actions == init + [last];
      ListsWithinParts(init, last, all);
      RunMakesListed(s, init, all);
      NamesStayWithin(Run(s, init), last, all);
      StepMakesListed(Run(s, init), last, all);
    }
  }

  /** Once everything is there for the nodes that are listed, reconciles change nothing any more. */
  lemma CompleteIsQuiet(s: State, actions: seq<Action>, names: seq<string>)
    requires |s.history| > 0 && Complete(Objs(s), names)
    requires NamesWithin(s, set n | n in names) && ListsWithin(actions, set n | n in names)
    requires forall i :: 0 <= i < |actions| ==> !actions[i].Others?
    ensures Objs(Run(s, actions)) == Objs(s)
  {
    RunMakesListed(s, actions, set n | n in names);
    hide Run, NamesWithin, ListsWithin, Objs, OnlyMade, Complete;
    forall t: Thing ensures OnlyMade(Objs(s), Objs(Run(s, actions)), t) {
      RunOnlyCreates(s, actions, t);
    }
    NothingIsMade(Objs(s), Objs(Run(s, actions)), names);
  }

  lemma NothingIsMade(o: Objects, o': Objects, names: seq<string>)
    requires Complete(o, names) && (forall t: Thing :: OnlyMade(o, o', t))
    requires o'.devices.Keys <= o.devices.Keys + set n | n in names
    ensures o' == o
  {
    assert OnlyMade(o, o', ConfigThing) && OnlyMade(o, o', PtpMapThing) && OnlyMade(o, o', LeapMapThing);
    forall n | n in o.devices ensures n in o'.devices && o'.devices[n] == o.devices[n] {
      assert OnlyMade(o, o', DeviceThing(n));
    }
    assert o'.devices == o.devices;
  }

  // ----- a reconcile that nothing interferes with is the code -----

  /** What goes wrong with the object at position `k` of the list. */
  function FaultAt(f: Faults, names: seq<string>, k: nat): Fault {
    if k < |names| then f.device(k) else if k == |names| then f.ptpMap else f.leapMap
  }

  /** Looking for one object and creating it if it is absent: what is left, and whether a call fails. */
  function Ensure(o: Objects, t: Thing, fault: Fault): (Objects, bool) {
    if fault == GetFails then (o, true)
    else if Has(o, t) then (o, false)
    else if fault == CreateFails then (o, true)
    else (Created(o, t), false)
  }

  /** The calls this takes. */
  function ThingCalls(o: Objects, t: Thing, fault: Fault, w: nat): seq<Action> {
    if fault == GetFails then [Fail(w)]
    else if Has(o, t) then [Get(w)]
    else if fault == CreateFails then [Get(w), Fail(w)]
    else [Get(w), Create(w)]
  }

  /** The calls from position `k` on. */
  function Calls(o: Objects, names: seq<string>, f: Faults, w: nat, k: nat): seq<Action>
    decreases |Todo(names)| - k
  {
    if k >= |Todo(names)| then []
    else
      var t, fault := Todo(names)[k], FaultAt(f, names, k);
      var (o', err) := Ensure(o, t, fault);
      ThingCalls(o, t, fault, w) + if err then [] else Calls(o', names, f, w, k + 1)
  }

  /** The objects they leave, and whether one of them fails. */
  function Driven(o: Objects, names: seq<string>, f: Faults, k: nat): (Objects, bool)
    decreases |Todo(names)| - k
  {
    if k >= |Todo(names)| then (o, false)
    else
      var (o', err) := Ensure(o, Todo(names)[k], FaultAt(f, names, k));
      if err then (o', true) else Driven(o', names, f, k + 1)
  }

  lemma {:induction false} RunAppend(s: State, first: seq<Action>, second: seq<Action>)
    requires |s.history| > 0
    ensures Run(s, first + second) == Run(Run(s, first), second)
  {
    hide After;
    if second == [] {
      assert first + second == first;
    } else {
      var init := second[..|second| - 1];
      RunAppend(s, first, init);
      assert (first + second)[..|first + second| - 1] == first + init;
    }
  }

  lemma RunOne(s: State, a: Action)
    requires |s.history| > 0
    ensures Run(s, [a]) == After(s, a)
  {
    hide After;
    assert [a][..0] == [];
    assert Run(s, []) == s;
  }

  lemma RunTwo(s: State, a: Action, b: Action)
    requires |s.history| > 0
    ensures Run(s, [a, b]) == After(After(s, a), b)
  {
    hide After;
    RunAppend(s, [a], [b]);
    RunOne(s, a);
    RunOne(Run(s, [a]), b);
    assert [a] + [b] == [a, b];
  }

  /** What the calls for one object do to the state of the protocol. */
  lemma ThingCallsEnsure(s: State, w: nat, since: nat, names: seq<string>, k: nat, fault: Fault)
    requires |s.history| > 0 && w < |s.phases| && k < |Todo(names)| && s.phases[w] == Looking(since, names, k)
    ensures var t := Todo(names)[k];
            var r := Run(s, ThingCalls(Objs(s), t, fault, w));
            var (o, err) := Ensure(Objs(s), t, fault);
            && Objs(r) == o && |r.phases| == |s.phases|
            && (if err then r.phases[w].Resting? && r.finished == s.finished
                else if k + 1 < |Todo(names)| then
                  r.phases[w] == Looking(since, names, k + 1) && r.finished == s.finished
                else r.phases[w].Resting? && |r.finished| == |s.finished| + 1)
  {
    hide Run, Created, Todo, After, Has;
    var t := Todo(names)[k];
    FailMoves(s, w);
    if fault == GetFails {
      RunOne(s, Fail(w));
    } else if Has(Objs(s), t) {
      GetFinds(s, w, since, names, k);
      RunOne(s, Get(w));
    } else if fault == CreateFails {
      GetMissPhase(s, w, since, names, k);
      RunTwo(s, Get(w), Fail(w));
      FailMoves(After(s, Get(w)), w);
    } else {
      GetMisses(s, w, since, names, k);
      RunTwo(s, Get(w), Create(w));
    }
  }

  /** The calls, run as steps of the protocol, leave just those objects, and finish iff none of them fails. */
  lemma {:induction false} CallsAreDriven(s: State, w: nat, since: nat, names: seq<string>, f: Faults, k: nat)
    requires |s.history| > 0 && w < |s.phases| && k < |Todo(names)| && s.phases[w] == Looking(since, names, k)
    ensures var r := Run(s, Calls(Objs(s), names, f, w, k));
            && (Objs(r), r.finished == s.finished) == Driven(Objs(s), names, f, k)
            && |r.phases| == |s.phases| && r.phases[w].Resting?
    decreases |Todo(names)| - k
  {
    hide Run, Todo, Ensure, ThingCalls, FaultAt;
    var o, t, fault := Objs(s), Todo(names)[k], FaultAt(f, names, k);
    var (o', err) := Ensure(o, t, fault);
    var first := ThingCalls(o, t, fault, w);
    ThingCallsEnsure(s, w, since, names, k, fault);
    var s1 := Run(s, first);
    if err {
      assert first + [] == first;
    } else {
      RunAppend(s, first, Calls(o', names, f, w, k + 1));
      if k + 1 < |Todo(names)| {
        CallsAreDriven(s1, w, since, names, f, k + 1);
      } else {
        RunNothing(s1);
      }
    }
  }

  lemma RunNothing(s: State)
    requires |s.history| > 0
    ensures Run(s, []) == s
  {
  }

  lemma GetFinds(s: State, w: nat, since: nat, names: seq<string>, k: nat)
    requires |s.history| > 0 && w < |s.phases| && k < |Todo(names)| && s.phases[w] == Looking(since, names, k)
    requires Has(Objs(s), Todo(names)[k])
    ensures After(s, Get(w)) == Onward(s, w, since, names, k)
  {
  }

  lemma GetMissPhase(s: State, w: nat, since: nat, names: seq<string>, k: nat)
    requires |s.history| > 0 && w < |s.phases| && k < |Todo(names)| && s.phases[w] == Looking(since, names, k)
    requires !Has(Objs(s), Todo(names)[k])
    ensures After(s, Get(w)) == WithPhase(s, w, Missing(since, names, k))
  {
  }

  lemma GetMisses(s: State, w: nat, since: nat, names: seq<string>, k: nat)
    requires |s.history| > 0 && w < |s.phases| && k < |Todo(names)| && s.phases[w] == Looking(since, names, k)
    requires !Has(Objs(s), Todo(names)[k])
    ensures var t := Todo(names)[k];
            var s' := After(After(s, Get(w)), Create(w));
            && Objs(s') == Created(Objs(s), t) && |s'.history| > 0 && |s'.phases| == |s.phases|
            && (if k + 1 < |Todo(names)| then s'.phases[w] == Looking(since, names, k + 1) && s'.finished == s.finished
                else s'.phases[w] == Resting && |s'.finished| == |s.finished| + 1)
  {
  }

  /** The devices come first: up to the first failing node they are what `Served` and `WithDevices` say. */
  lemma {:induction false} DevicesDriven(o: Objects, names: seq<string>, f: Faults, k: nat)
    requires k <= |names| && Served(o.devices, names, f.device, 0) == Served(o.devices, names, f.device, k)
    ensures var served := Served(o.devices, names, f.device, 0);
            var o' := o.(devices := WithDevices(o.devices, names[..served]));
            Driven(o.(devices := WithDevices(o.devices, names[..k])), names, f, k)
            == if served < |names| then (o', true) else Driven(o', names, f, |names|)
    decreases |names| - k
  {
    if k < |names| {
      var ok := o.(devices := WithDevices(o.devices, names[..k]));
      DeviceAt(names, f, k);
      OneMoreDevice(o.devices, names, k);
      ServedStep(o.devices, names, f.device, k);
      hide WithDevices, Served, Todo, FaultAt;
      DeviceEnsured(ok, names[k], f.device(k));
      if !Fails(o.devices, names, f.device, k) {
        DevicesDriven(o, names, f, k + 1);
      }
    }
  }

  lemma DeviceAt(names: seq<string>, f: Faults, k: nat)
    requires k < |names|
    ensures Todo(names)[k] == DeviceThing(names[k]) && FaultAt(f, names, k) == f.device(k)
  {
  }

  lemma DeviceEnsured(o: Objects, n: string, fault: Fault)
    ensures Ensure(o, DeviceThing(n), fault)
            == if fault == GetFails || (fault == CreateFails && n !in o.devices) then (o, true)
               else (o.(devices := if n in o.devices then o.devices else o.devices[n := EMPTY_DEVICE]), false)
  {
  }

  lemma MapThings(names: seq<string>, f: Faults)
    ensures Todo(names)[|names|] == PtpMapThing && Todo(names)[|names| + 1] == LeapMapThing
    ensures FaultAt(f, names, |names|) == f.ptpMap && FaultAt(f, names, |names| + 1) == f.leapMap
  {
  }

  lemma MapsDriven(o: Objects, names: seq<string>, f: Faults)
    ensures Driven(o, names, f, |names|) ==
              var (o1, ptpErr) := Ensure(o, PtpMapThing, f.ptpMap);
              if ptpErr then (o1, true) else Ensure(o1, LeapMapThing, f.leapMap)
  {
    MapThings(names, f);
    hide Ensure, Todo, FaultAt;
    var (o1, ptpErr) := Ensure(o, PtpMapThing, f.ptpMap);
    var (o2, leapErr) := Ensure(o1, LeapMapThing, f.leapMap);
    assert Driven(o2, names, f, |names| + 2) == (o2, false);
    assert Driven(o1, names, f, |names| + 1) == (o2, leapErr);
  }

  lemma EnsuredMaps(o: Objects, ptpFault: Fault, leapFault: Fault)
    ensures var (ptpMap, err) := Ensured(o.ptpMap, map[], ptpFault);
            Ensure(o, PtpMapThing, ptpFault) == (o.(ptpMap := ptpMap), err)
    ensures var (leapMap, err) := Ensured(o.leapMap, map[], leapFault);
            Ensure(o, LeapMapThing, leapFault) == (o.(leapMap := leapMap), err)
  {
  }

  /** Once the nodes are listed, the calls leave what the code's `Reconcile` leaves. */
  lemma DrivenIsReconciled(o: Objects, nodes: seq<Node>, f: Faults)
    requires o.operatorConfig.Some? && f.operatorConfig != GetFails && !f.listNodes
    ensures Driven(o, NamesOf(nodes), f, 0).0 == Reconciled(o, nodes, f).0
    ensures Reconciled(o, nodes, f).1 <==> Driven(o, NamesOf(nodes), f, 0).1 || f.daemon
  {
    hide Served, WithDevices, Driven, Ensure, NamesOf;
    var names := NamesOf(nodes);
    NoDeviceYet(o.devices);
    assert names[..0] == [];
    DevicesDriven(o, names, f, 0);
    var o1 := o.(devices := WithDevices(o.devices, names[..Served(o.devices, names, f.device, 0)]));
    MapsDriven(o1, names, f);
    EnsuredMaps(o1, f.ptpMap, f.leapMap);
    var (o2, _) := Ensure(o1, PtpMapThing, f.ptpMap);
    EnsuredMaps(o2, f.ptpMap, f.leapMap);
  }

  /** All calls of one reconcile. */
  function ReconcileCalls(o: Objects, nodes: seq<Node>, f: Faults, w: nat): seq<Action> {
    if f.operatorConfig == GetFails then [Fail(w)]
    else if o.operatorConfig.None? then
      [GetConfig(w), if f.operatorConfig == CreateFails then Fail(w) else CreateConfig(w)]
    else if f.listNodes then [GetConfig(w), Fail(w)]
    else [GetConfig(w), ListNodes(w)] + Calls(o, NamesOf(nodes), f, w, 0)
  }

  /**
   A reconcile that nothing interferes with leaves exactly the objects that the code's
   `Reconcile` leaves.
   */
  lemma UndisturbedIsReconciled(s: State, w: nat, f: Faults)
    requires |s.history| > 0 && w < |s.phases| && s.phases[w].Resting?
    ensures Objs(Run(s, ReconcileCalls(Objs(s), s.nodes, f, w))) == Reconciled(Objs(s), s.nodes, f).0
  {
    hide Run, Reconciled, ReconcileCalls;
    if f.operatorConfig == GetFails || Objs(s).operatorConfig.None? || f.listNodes {
      EarlyReturn(s, w, f);
    } else {
      LateReturn(s, w, f);
    }
  }

  lemma LateReturn(s: State, w: nat, f: Faults)
    requires |s.history| > 0 && w < |s.phases| && s.phases[w].Resting?
    requires f.operatorConfig != GetFails && Objs(s).operatorConfig.Some? && !f.listNodes
    ensures Objs(Run(s, ReconcileCalls(Objs(s), s.nodes, f, w))) == Reconciled(Objs(s), s.nodes, f).0
  {
    hide Run, Reconciled, Driven, Calls, NamesOf, Todo;
    var o, names := Objs(s), NamesOf(s.nodes);
    var looked := WithPhase(s, w, Looking(s.Now(), names, 0));
    BothLooked(s, w);
    RunAppend(s, [GetConfig(w), ListNodes(w)], Calls(o, names, f, w, 0));
    CallsAreDriven(looked, w, s.Now(), names, f, 0);
    DrivenIsReconciled(o, s.nodes, f);
  }

  lemma EarlyReturn(s: State, w: nat, f: Faults)
    requires |s.history| > 0 && w < |s.phases| && s.phases[w].Resting?
    requires f.operatorConfig == GetFails || Objs(s).operatorConfig.None? || f.listNodes
    ensures Objs(Run(s, ReconcileCalls(Objs(s), s.nodes, f, w))) == Reconciled(Objs(s), s.nodes, f).0
  {
    hide Run, Served, WithDevices, Todo, Calls, NamesOf, After;
    var o := Objs(s);
    GetConfigStep(s, w);
    FailMoves(s, w);
    FailMoves(After(s, GetConfig(w)), w);
    if f.operatorConfig == GetFails {
      RunOne(s, Fail(w));
    } else if o.operatorConfig.None? {
      RunTwo(s, GetConfig(w), if f.operatorConfig == CreateFails then Fail(w) else CreateConfig(w));
      CreateConfigStep(After(s, GetConfig(w)), w);
    } else {
      RunTwo(s, GetConfig(w), Fail(w));
    }
  }

  lemma GetConfigStep(s: State, w: nat)
    requires |s.history| > 0 && w < |s.phases| && s.phases[w].Resting?
    ensures After(s, GetConfig(w))
            == WithPhase(s, w, if Objs(s).operatorConfig.Some? then Configured(s.Now()) else NoConfig)
  {
  }

  lemma CreateConfigStep(s: State, w: nat)
    requires |s.history| > 0 && w < |s.phases| && s.phases[w].NoConfig? && Objs(s).operatorConfig.None?
    ensures |After(s, CreateConfig(w)).history| > 0
    ensures Objs(After(s, CreateConfig(w))) == Objs(s).(operatorConfig := Some(map[]))
  {
  }

  lemma FailMoves(s: State, w: nat)
    requires |s.history| > 0 && w < |s.phases|
    ensures After(s, Fail(w)) == WithPhase(s, w, Resting)
  {
  }

  lemma BothLooked(s: State, w: nat)
    requires |s.history| > 0 && w < |s.phases| && s.phases[w].Resting? && Objs(s).operatorConfig.Some?
    ensures Run(s, [GetConfig(w), ListNodes(w)]) == WithPhase(s, w, Looking(s.Now(), NamesOf(s.nodes), 0))
    ensures |Todo(NamesOf(s.nodes))| > 0
  {
    hide Run, Todo, NamesOf;
    RunTwo(s, GetConfig(w), ListNodes(w));
    var s1 := WithPhase(s, w, Configured(s.Now()));
    assert After(s, GetConfig(w)) == s1;
    assert s1.phases[w := Looking(s.Now(), NamesOf(s.nodes), 0)]
        == s.phases[w := Looking(s.Now(), NamesOf(s.nodes), 0)];
  }
}

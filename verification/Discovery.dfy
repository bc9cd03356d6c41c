/**
 Clock mode discovery: `discoverMode` in `test/pkg/testconfig/testconfig.go` and `IsSecondaryBc` in
 `test/pkg/ptphelper/ptphelper.go`.
*/
module Discovery {
  import opened Prelude
  import opened PtpTypes
  import opened Ptp4lConf
  import opened Interfaces
  import opened Printer

  datatype Mode = OrdinaryClock | BoundaryClock | DualNICBoundaryClock | TelcoGrandMasterClock | DiscoveryMode | NoMode

  datatype Status = Start | Init | Configured | DiscoverySuccess | DiscoveryFailure

  // ----- the classification -----

  ghost function AnEnumeration(keys: set<string>): seq<string> {
    if keys == {} then []
    else
      var k :| k in keys;
      [k] + AnEnumeration(keys - {k})
  }

  lemma {:induction false} AnEnumerationEnumerates(keys: set<string>)
    ensures Enumerates(AnEnumeration(keys), keys)
  {
    if keys != {} {
      var k :| k in keys && AnEnumeration(keys) == [k] + AnEnumeration(keys - {k});
      AnEnumerationEnumerates(keys - {k});
    }
  }

  /** How many interfaces `GetInterfaces` returns; the walk order does not matter. */
  ghost function Count(c: PtpConfig, role: Role): nat {
    if |c.profiles| == 0 then 0
    else
      var order := AnEnumeration(ParsedSections(FirstConf(c)).Keys);
      AnEnumerationEnumerates(ParsedSections(FirstConf(c)).Keys);
      |InterfacesIn(ParsedSections(FirstConf(c)), c.profiles[0].iface, role, order)|
  }

  lemma CountNeedsProfile(c: PtpConfig, role: Role)
    ensures Count(c, role) > 0 ==> |c.profiles| > 0
  {
  }

  /** All that the discovery reads from a config. */
  datatype Shape = Shape(masters: nat, slaves: nat, secondary: bool, ts2phcConf: Option<string>) {
    predicate Ordinary() {
      masters == 0 && slaves == 1
    }

    predicate Boundary() {
      masters >= 1 && slaves >= 1
    }

    /** The shape for which the code goes on to read `Ts2PhcConf`. */
    predicate OnlyMasters() {
      masters >= 2 && slaves == 0
    }

    predicate GrandMaster() {
      OnlyMasters() && ts2phcConf.Some? && ts2phcConf.value != ""
    }
  }

  ghost predicate Secondary(c: PtpConfig) {
    forall p :: p in c.profiles ==> p.phc2sysOpts.None?
  }

  ghost function ShapeOf(c: PtpConfig): Shape {
    Shape(Count(c, Master), Count(c, Slave), Secondary(c), if |c.profiles| == 0 then None else c.profiles[0].ts2phcConf)
  }

  ghost function ShapeIn(c: PtpConfig): seq<Shape> { [ShapeOf(c)] }

  ghost function ShapesOf(configs: seq<PtpConfig>): seq<Shape> {
    FlatMap(ShapeIn, configs)
  }

  function BoundaryIn(s: Shape): seq<Shape> {
    if s.Boundary() then [s] else []
  }

  function SecondaryIn(s: Shape): seq<Shape> {
    if s.Boundary() && s.secondary then [s] else []
  }

  function Boundaries(shapes: seq<Shape>): seq<Shape> {
    FlatMap(BoundaryIn, shapes)
  }

  function Secondaries(shapes: seq<Shape>): seq<Shape> {
    FlatMap(SecondaryIn, shapes)
  }

  ghost predicate AnyGrandMaster(shapes: seq<Shape>) {
    exists s :: s in shapes && s.GrandMaster()
  }

  /** The mode the configs under test stand for, if any. */
  ghost function Classification(shapes: seq<Shape>): Option<Mode> {
    if |Boundaries(shapes)| == 1 then Some(BoundaryClock)
    else if |Boundaries(shapes)| == 2 && |Secondaries(shapes)| == 1 then Some(DualNICBoundaryClock)
    else if |shapes| == 1 && shapes[0].Ordinary() then Some(OrdinaryClock)
    else if AnyGrandMaster(shapes) then Some(TelcoGrandMasterClock)
    else None
  }

  /** The code reads a nil `Ts2PhcConf`. */
  ghost predicate ReadsNil(shapes: seq<Shape>) {
    exists s :: s in shapes && s.OnlyMasters() && s.ts2phcConf.None?
  }

  /** The fields that remember a config. */
  datatype Field = ClockField | SecondaryField | GrandMasterField

  /** Whether a config of shape `s`, met after `shapes`, is put into the field. */
  predicate Claims(shapes: seq<Shape>, s: Shape, f: Field) {
    match f
    case ClockField => s.GrandMaster() || (s.Boundary() && |Boundaries(shapes)| == 0)
    case SecondaryField => s.Boundary() && |Boundaries(shapes)| == 1
    case GrandMasterField => s.GrandMaster()
  }

  ghost predicate ClaimsAt(shapes: seq<Shape>, f: Field, j: nat) {
    j < |shapes| && Claims(shapes[..j], shapes[j], f)
  }

  ghost predicate LastClaim(shapes: seq<Shape>, f: Field, j: nat) {
    ClaimsAt(shapes, f, j) && forall i: nat :: i > j ==> !ClaimsAt(shapes, f, i)
  }

  /** The field holds the last config that claims it, or what it held before. */
  ghost predicate Remembers(value: Option<PtpConfig>, before: Option<PtpConfig>, configs: seq<PtpConfig>,
                            shapes: seq<Shape>, f: Field)
  {
    && (forall j: nat :: LastClaim(shapes, f, j) ==> j < |configs| && value == Some(configs[j]))
    && ((forall j: nat :: !ClaimsAt(shapes, f, j)) ==> value == before)
  }

  lemma RemembersOneMore(value: Option<PtpConfig>, before: Option<PtpConfig>, configs: seq<PtpConfig>,
                         shapes: seq<Shape>, s: Shape, f: Field)
    requires |shapes| < |configs| && Remembers(value, before, configs, shapes, f)
    ensures Remembers(if Claims(shapes, s, f) then Some(configs[|shapes|]) else value, before, configs, shapes + [s], f)
  {
    hide Claims;
    var shapes' := shapes + [s];
    assert shapes'[..|shapes|] == shapes;
    forall j: nat
      ensures ClaimsAt(shapes', f, j) <==> if j == |shapes| then Claims(shapes, s, f) else ClaimsAt(shapes, f, j)
    {
      if j < |shapes| {
        assert shapes'[..j] == shapes[..j];
      }
    }
    forall j: nat | LastClaim(shapes', f, j) && j != |shapes| ensures LastClaim(shapes, f, j) && !Claims(shapes, s, f) {
      assert !ClaimsAt(shapes', f, |shapes|);
    }
    if Claims(shapes, s, f) {
      assert ClaimsAt(shapes', f, |shapes|);
    }
  }

  // ----- the same in terms of the configs -----

  /** The config has master and slave interfaces. */
  ghost predicate HasBothRoles(c: PtpConfig) {
    Count(c, Master) >= 1 && Count(c, Slave) >= 1
  }

  /** The config has several masters, no slave, and this `ts2phcConf`. */
  ghost predicate MastersOnly(c: PtpConfig, ts2phcConf: Option<string>) {
    Count(c, Master) >= 2 && Count(c, Slave) == 0 && |c.profiles| > 0 && c.profiles[0].ts2phcConf == ts2phcConf
  }

  ghost predicate IsGrandMaster(c: PtpConfig) {
    exists conf :: conf != "" && MastersOnly(c, Some(conf))
  }

  ghost predicate HasNoPhc2sys(c: PtpConfig) {
    forall p :: p in c.profiles ==> p.phc2sysOpts.None?
  }

  /** Where the configs with both roles are. */
  ghost function BothRolesAt(configs: seq<PtpConfig>): set<nat> {
    set i: nat | i < |configs| && HasBothRoles(configs[i])
  }

  /** Those of them in which no profile has phc2sys options. */
  ghost function SecondaryAt(configs: seq<PtpConfig>): set<nat> {
    set i: nat | i < |configs| && HasBothRoles(configs[i]) && HasNoPhc2sys(configs[i])
  }

  /** The mode that the configs stand for, if any. */
  ghost function ModeOf(configs: seq<PtpConfig>): Option<Mode> {
    if |BothRolesAt(configs)| == 1 then Some(BoundaryClock)
    else if |BothRolesAt(configs)| == 2 && |SecondaryAt(configs)| == 1 then Some(DualNICBoundaryClock)
    else if |configs| == 1 && Count(configs[0], Master) == 0 && Count(configs[0], Slave) == 1 then Some(OrdinaryClock)
    else if exists c :: c in configs && IsGrandMaster(c) then Some(TelcoGrandMasterClock)
    else None
  }

  /** Config `j` is put into the field: a grand master, the first or the second one with both roles. */
  ghost predicate Takes(configs: seq<PtpConfig>, f: Field, j: nat) {
    && j < |configs|
    && match f
       case ClockField => IsGrandMaster(configs[j]) || (HasBothRoles(configs[j]) && |BothRolesAt(configs[..j])| == 0)
       case SecondaryField => HasBothRoles(configs[j]) && |BothRolesAt(configs[..j])| == 1
       case GrandMasterField => IsGrandMaster(configs[j])
  }

  /** The last config that is put into the field stays in it; without one it holds what it held. */
  ghost predicate Holds(value: Option<PtpConfig>, before: Option<PtpConfig>, configs: seq<PtpConfig>, f: Field) {
    && (forall j: nat :: Takes(configs, f, j) && (forall i: nat :: i > j ==> !Takes(configs, f, i)) ==>
          value == Some(configs[j]))
    && ((forall j: nat :: !Takes(configs, f, j)) ==> value == before)
  }

  // ----- the code -----

  method CountInterfaces(c: PtpConfig, role: Role) returns (n: nat)
    ensures n == Count(c, role)
  {
    var interfaces;
    ghost var order;
    interfaces, order := GetInterfaces(c, role);
    if |c.profiles| > 0 {
      hide ParsedSections;
      ghost var sections := ParsedSections(FirstConf(c));
      AnEnumerationEnumerates(sections.Keys);
      WalkOrderIsIrrelevant(sections, c.profiles[0].iface, role, order, AnEnumeration(sections.Keys));
    }
    return |interfaces|;
  }

  method IsSecondaryBc(config: PtpConfig) returns (b: bool)
    ensures b <==> Secondary(config)
  {
    for i := 0 to |config.profiles|
      invariant forall p :: p in config.profiles[..i] ==> p.phc2sysOpts.None?
    {
      if config.profiles[i].phc2sysOpts.Some? {
        return false;
      }
    }
    return true;
  }

  /** The fields as a discovery finds them. */
  datatype Before = Before(
    mode: Mode,
    clock: Option<PtpConfig>,
    secondary: Option<PtpConfig>,
    grandMaster: Option<PtpConfig>)

  class TestConfig {
    var modeDiscovered: Mode
    var status: Status
    var clockUnderTest: Option<PtpConfig>
    var clockUnderTestSecondary: Option<PtpConfig>
    var grandMaster: Option<PtpConfig>

    constructor ()
      ensures modeDiscovered == NoMode && status == Start
    {
      modeDiscovered, status := NoMode, Start;
      clockUnderTest, clockUnderTestSecondary, grandMaster := None, None, None;
    }

    /** The outcome: success with the mode, or failure with the mode left as it was. */
    ghost predicate Agrees(outcome: Option<Mode>, entryMode: Mode)
      reads this
    {
      match outcome
      case Some(m) => status == DiscoverySuccess && modeDiscovered == m
      case None => status == DiscoveryFailure && modeDiscovered == entryMode
    }

    ghost function Contents(): Before
      reads this
    {
      Before(modeDiscovered, clockUnderTest, clockUnderTestSecondary, grandMaster)
    }

    /** What the fields hold while no lone ordinary clock and no nil has been met. */
    ghost predicate Tracks(configs: seq<PtpConfig>, shapes: seq<Shape>, entry: Before)
      reads this
    {
      && |shapes| <= |configs| && !ReadsNil(shapes)
      && Agrees(if AnyGrandMaster(shapes) then Some(TelcoGrandMasterClock) else None, entry.mode)
      && Remembers(clockUnderTest, entry.clock, configs, shapes, ClockField)
      && Remembers(clockUnderTestSecondary, entry.secondary, configs, shapes, SecondaryField)
      && Remembers(grandMaster, entry.grandMaster, configs, shapes, GrandMasterField)
    }

    /** One round of the loop of `discoverMode` for a config that is no lone ordinary clock. */
    method Examine(configs: seq<PtpConfig>, ptpConfig: PtpConfig, masterIf: nat, slaveIf: nat, numBc: nat,
                   numSecondaryBc: nat, ghost shapes: seq<Shape>, ghost s: Shape, ghost entry: Before)
      returns (panicked: bool, numBc': nat, numSecondaryBc': nat)
      requires |shapes| < |configs| && ptpConfig == configs[|shapes|]
      requires masterIf == s.masters && slaveIf == s.slaves && s.secondary == Secondary(ptpConfig)
      requires masterIf > 0 ==> |ptpConfig.profiles| > 0 && s.ts2phcConf == ptpConfig.profiles[0].ts2phcConf
      requires numBc == |Boundaries(shapes)| && numSecondaryBc == |Secondaries(shapes)|
      requires Tracks(configs, shapes, entry)
      modifies this
      ensures panicked <==> s.OnlyMasters() && s.ts2phcConf.None?
      ensures !panicked ==> Tracks(configs, shapes + [s], entry)
      ensures !panicked ==> numBc' == |Boundaries(shapes + [s])| && numSecondaryBc' == |Secondaries(shapes + [s])|
    {
      hide Boundaries, Secondaries, AnyGrandMaster, ReadsNil, Remembers;
      OneMoreShape(shapes, s);
      RemembersOneMore(clockUnderTest, entry.clock, configs, shapes, s, ClockField);
      RemembersOneMore(clockUnderTestSecondary, entry.secondary, configs, shapes, s, SecondaryField);
      RemembersOneMore(grandMaster, entry.grandMaster, configs, shapes, s, GrandMasterField);
      numBc', numSecondaryBc' := numBc, numSecondaryBc;
      if masterIf >= 1 && slaveIf >= 1 {
        if numBc == 0 {
          clockUnderTest := Some(ptpConfig);
        }
        if numBc == 1 {
          clockUnderTestSecondary := Some(ptpConfig);
        }
        numBc' := numBc + 1;
        var secondary := IsSecondaryBc(ptpConfig);
        if secondary {
          numSecondaryBc' := numSecondaryBc + 1;
        }
      }
      if masterIf >= 2 && slaveIf == 0 {
        if ptpConfig.profiles[0].ts2phcConf.None? {
          return true, numBc', numSecondaryBc';
        }
        if ptpConfig.profiles[0].ts2phcConf.value != "" {
          clockUnderTest := Some(ptpConfig);
          modeDiscovered := TelcoGrandMasterClock;
          status := DiscoverySuccess;
          grandMaster := Some(ptpConfig);
        }
      }
      return false, numBc', numSecondaryBc';
    }

    /**
     The fields after a discovery that saw these shapes: the mode and status it calls for, the
     lone ordinary clock or else the last config that claims the clock under test, the second
     boundary clock, and the last grand master.
     */
    ghost predicate Concluded(configs: seq<PtpConfig>, shapes: seq<Shape>, entry: Before)
      reads this
    {
      && |shapes| == |configs|
      && Agrees(Classification(shapes), entry.mode)
      && (if Classification(shapes) == Some(OrdinaryClock) then |configs| == 1 && clockUnderTest == Some(configs[0])
          else Remembers(clockUnderTest, entry.clock, configs, shapes, ClockField))
      && Remembers(clockUnderTestSecondary, entry.secondary, configs, shapes, SecondaryField)
      && Remembers(grandMaster, entry.grandMaster, configs, shapes, GrandMasterField)
    }

    lemma NothingSeen(configs: seq<PtpConfig>, entry: Before)
      requires status == DiscoveryFailure && Contents() == entry
      ensures Tracks(configs, [], entry)
      ensures Boundaries([]) == [] && Secondaries([]) == [] && ShapesOf([]) == []
      ensures Concluded([], [], entry) && !ReadsNil([])
    {
    }

    lemma LoneConcluded(config: PtpConfig, shape: Shape, entry: Before)
      requires shape.Ordinary() && Contents() == entry.(mode := OrdinaryClock, clock := Some(config))
      requires status == DiscoverySuccess
      ensures Concluded([config], [shape], entry) && !ReadsNil([shape])
    {
      FlatMapOne(BoundaryIn, shape);
      forall f: Field, j: nat | f != ClockField ensures !ClaimsAt([shape], f, j) {}
    }

    /** What that is in terms of the configs. */
    lemma ConcludedMeans(configs: seq<PtpConfig>, entry: Before)
      requires Concluded(configs, ShapesOf(configs), entry)
      ensures ModeOf(configs).Some? ==> status == DiscoverySuccess && Some(modeDiscovered) == ModeOf(configs)
      ensures ModeOf(configs).None? ==> status == DiscoveryFailure && modeDiscovered == entry.mode
      ensures if ModeOf(configs) == Some(OrdinaryClock) then |configs| == 1 && clockUnderTest == Some(configs[0])
              else Holds(clockUnderTest, entry.clock, configs, ClockField)
      ensures Holds(clockUnderTestSecondary, entry.secondary, configs, SecondaryField)
      ensures Holds(grandMaster, entry.grandMaster, configs, GrandMasterField)
    {
      DiscoveredMode(configs);
      hide ModeOf, Classification, ShapesOf, Remembers, Holds;
      if ModeOf(configs) != Some(OrdinaryClock) {
        RemembersIsHolds(clockUnderTest, entry.clock, configs, ClockField);
      }
      RemembersIsHolds(clockUnderTestSecondary, entry.secondary, configs, SecondaryField);
      RemembersIsHolds(grandMaster, entry.grandMaster, configs, GrandMasterField);
    }

    /** `discoverMode` up to the pod lookup; `panicked` is the nil dereference. */
    method DiscoverMode(configs: seq<PtpConfig>) returns (panicked: bool)
      modifies this
      ensures panicked <==> ReadsNil(ShapesOf(configs))
      ensures !panicked ==> Concluded(configs, ShapesOf(configs), old(Contents()))
    {
      hide Count, Boundaries, Secondaries, FlatMap, Tracks, Concluded, ReadsNil, ShapesOf;
      status := DiscoveryFailure;
      if |configs| == 0 {
        NothingSeen(configs, Contents());
        assert configs == [];
        return false;
      }
      var numBc, numSecondaryBc := 0, 0;
      ghost var shapes: seq<Shape>, entry := [], Contents();
      NothingSeen(configs, entry);
      assert configs[..0] == [];
      for i := 0 to |configs|
        invariant |shapes| == i && shapes == ShapesOf(configs[..i])
        invariant numBc == |Boundaries(shapes)| && numSecondaryBc == |Secondaries(shapes)|
        invariant i >= 1 && |configs| == 1 ==> !shapes[0].Ordinary()
        invariant Tracks(configs, shapes, entry)
        invariant i == 0 ==> Contents() == entry
      {
        var ptpConfig := configs[i];
        ghost var shape := ShapeOf(ptpConfig);
        var masterIf := CountInterfaces(ptpConfig, Master);
        var slaveIf := CountInterfaces(ptpConfig, Slave);
        CountNeedsProfile(ptpConfig, Master);
        OneMoreConfig(configs, i);
        if masterIf == 0 && slaveIf == 1 && |configs| == 1 {
          modeDiscovered := OrdinaryClock;
          status := DiscoverySuccess;
          clockUnderTest := Some(ptpConfig);
          LoneConcluded(ptpConfig, shape, entry);
          LoneConfig(ptpConfig);
          assert configs == [ptpConfig];
          return false;
        }
        panicked, numBc, numSecondaryBc :=
          Examine(configs, ptpConfig, masterIf, slaveIf, numBc, numSecondaryBc, shapes, shape, entry);
        shapes := shapes + [shape];
        if panicked {
          NilIsRead(configs, ptpConfig);
          return true;
        }
      }
      assert configs[..|configs|] == configs;
      Conclude(configs, numBc, numSecondaryBc, shapes, entry);
      return false;
    }

    /** What `discoverMode` does once all configs have been looked at. */
    method Conclude(configs: seq<PtpConfig>, numBc: nat, numSecondaryBc: nat, ghost shapes: seq<Shape>,
                    ghost entry: Before)
      requires |shapes| == |configs| && (|shapes| == 1 ==> !shapes[0].Ordinary())
      requires numBc == |Boundaries(shapes)| && numSecondaryBc == |Secondaries(shapes)|
      requires Tracks(configs, shapes, entry)
      modifies this`modeDiscovered, this`status
      ensures Concluded(configs, shapes, entry) && !ReadsNil(shapes)
    {
      if numBc == 1 {
        modeDiscovered := BoundaryClock;
        status := DiscoverySuccess;
      }
      if numBc == 2 && numSecondaryBc == 1 {
        modeDiscovered := DualNICBoundaryClock;
        status := DiscoverySuccess;
      }
    }
  }

  lemma OneMoreShape(shapes: seq<Shape>, s: Shape)
    ensures |Boundaries(shapes + [s])| == |Boundaries(shapes)| + (if s.Boundary() then 1 else 0)
    ensures |Secondaries(shapes + [s])| == |Secondaries(shapes)| + (if s.Boundary() && s.secondary then 1 else 0)
    ensures AnyGrandMaster(shapes + [s]) <==> AnyGrandMaster(shapes) || s.GrandMaster()
    ensures ReadsNil(shapes + [s]) <==> ReadsNil(shapes) || (s.OnlyMasters() && s.ts2phcConf.None?)
  {
    FlatMapAppend(BoundaryIn, shapes, [s]);
    FlatMapOne(BoundaryIn, s);
    FlatMapAppend(SecondaryIn, shapes, [s]);
    FlatMapOne(SecondaryIn, s);
    assert s in shapes + [s];
    forall r | r in shapes ensures r in shapes + [s] {}
  }

  lemma OneMoreConfig(configs: seq<PtpConfig>, i: nat)
    requires i < |configs|
    ensures ShapesOf(configs[..i + 1]) == ShapesOf(configs[..i]) + [ShapeOf(configs[i])]
  {
    FlatMapStep(ShapeIn, configs, i);
  }

  lemma NilIsRead(configs: seq<PtpConfig>, c: PtpConfig)
    requires c in configs && ShapeOf(c).OnlyMasters() && ShapeOf(c).ts2phcConf.None?
    ensures ReadsNil(ShapesOf(configs))
  {
    hide Count, FlatMap;
    FlatMapMember(ShapeIn, configs, ShapeOf(c));
    assert ShapeOf(c) in ShapeIn(c);
  }

  // ----- laws -----

  /** Mode, success and the nil dereference depend only on the multiset of configs. */
  lemma DiscoveryIgnoresOrder(configs: seq<PtpConfig>, configs': seq<PtpConfig>)
    requires multiset(configs) == multiset(configs')
    ensures Classification(ShapesOf(configs)) == Classification(ShapesOf(configs'))
    ensures ReadsNil(ShapesOf(configs)) <==> ReadsNil(ShapesOf(configs'))
  {
    FlatMapPermutation(ShapeIn, configs, configs');
    ClassificationIgnoresOrder(ShapesOf(configs), ShapesOf(configs'));
  }

  lemma ClassificationIgnoresOrder(shapes: seq<Shape>, shapes': seq<Shape>)
    requires multiset(shapes) == multiset(shapes')
    ensures Classification(shapes) == Classification(shapes')
    ensures ReadsNil(shapes) <==> ReadsNil(shapes')
  {
    CountsIgnoreOrder(shapes, shapes');
    hide Boundaries, Secondaries;
    SameMembers(shapes, shapes');
    if |shapes| == 1 {
      assert shapes[0] in shapes && shapes[0] in shapes';
    }
  }

  lemma CountsIgnoreOrder(shapes: seq<Shape>, shapes': seq<Shape>)
    requires multiset(shapes) == multiset(shapes')
    ensures |Boundaries(shapes)| == |Boundaries(shapes')|
    ensures |Secondaries(shapes)| == |Secondaries(shapes')|
  {
    hide FlatMap;
    FlatMapPermutation(BoundaryIn, shapes, shapes');
    FlatMapPermutation(SecondaryIn, shapes, shapes');
    assert |Boundaries(shapes)| == |multiset(Boundaries(shapes))| == |Boundaries(shapes')|;
    assert |Secondaries(shapes)| == |multiset(Secondaries(shapes))| == |Secondaries(shapes')|;
  }

  lemma ShapeMeans(c: PtpConfig)
    ensures ShapeOf(c).Boundary() <==> HasBothRoles(c)
    ensures ShapeOf(c).GrandMaster() <==> IsGrandMaster(c)
    ensures ShapeOf(c).OnlyMasters() && ShapeOf(c).ts2phcConf.None? <==> MastersOnly(c, None)
    ensures ShapeOf(c).secondary <==> HasNoPhc2sys(c)
    ensures ShapeOf(c).Ordinary() <==> Count(c, Master) == 0 && Count(c, Slave) == 1
  {
    CountNeedsProfile(c, Master);
    hide Count;
    if ShapeOf(c).GrandMaster() {
      assert MastersOnly(c, Some(c.profiles[0].ts2phcConf.value));
    }
  }

  lemma OneMorePlace(init: seq<PtpConfig>, c: PtpConfig)
    ensures BothRolesAt(init + [c]) == BothRolesAt(init) + if HasBothRoles(c) then {|init|} else {}
    ensures SecondaryAt(init + [c])
            == SecondaryAt(init)
               + if HasBothRoles(c) && HasNoPhc2sys(c) then {|init|} else {}
  {
    hide HasBothRoles;
    var configs := init + [c];
    assert forall i: nat :: i < |init| ==> configs[i] == init[i];
    assert configs[|init|] == c;
  }

  lemma OneMoreCounted(init: seq<PtpConfig>, c: PtpConfig)
    ensures |BothRolesAt(init + [c])| == |BothRolesAt(init)| + if HasBothRoles(c) then 1 else 0
    ensures |SecondaryAt(init + [c])|
            == |SecondaryAt(init)| + if HasBothRoles(c) && HasNoPhc2sys(c) then 1 else 0
  {
    hide HasBothRoles;
    OneMorePlace(init, c);
    assert |init| !in BothRolesAt(init) && |init| !in SecondaryAt(init);
  }

  lemma {:induction false} CountedPlaces(configs: seq<PtpConfig>)
    ensures |Boundaries(ShapesOf(configs))| == |BothRolesAt(configs)|
    ensures |Secondaries(ShapesOf(configs))| == |SecondaryAt(configs)|
  {
    hide Boundaries, Secondaries, HasBothRoles, ShapeOf, BothRolesAt, SecondaryAt;
    if configs == [] {
      NoPlaces();
    } else {
      var init, c := configs[..|configs| - 1], configs[|configs| - 1];
      hide ShapesOf;
      CountedPlaces(init);
      assert configs == init + [c];
      OneMoreConfigAppended(init, c);
      OneMoreShape(ShapesOf(init), ShapeOf(c));
      ShapeMeans(c);
      OneMoreCounted(init, c);
    }
  }

  lemma NoPlaces()
    ensures |Boundaries(ShapesOf([]))| == |BothRolesAt([])| == 0
    ensures |Secondaries(ShapesOf([]))| == |SecondaryAt([])| == 0
  {
    assert BothRolesAt([]) == {} && SecondaryAt([]) == {};
  }

  lemma OneMoreConfigAppended(init: seq<PtpConfig>, c: PtpConfig)
    ensures ShapesOf(init + [c]) == ShapesOf(init) + [ShapeOf(c)]
  {
    FlatMapAppend(ShapeIn, init, [c]);
    FlatMapOne(ShapeIn, c);
  }

  lemma NoShapes()
    ensures ShapesOf([]) == []
  {
  }

  lemma {:induction false} ShapesAreOfConfigs(configs: seq<PtpConfig>)
    ensures |ShapesOf(configs)| == |configs|
    ensures forall i :: 0 <= i < |configs| ==> ShapesOf(configs)[i] == ShapeOf(configs[i])
  {
    hide ShapeOf, ShapesOf;
    if configs == [] {
      NoShapes();
    } else {
      var init, c := configs[..|configs| - 1], configs[|configs| - 1];
      ShapesAreOfConfigs(init);
      assert configs == init + [c];
      OneMoreConfigAppended(init, c);
    }
  }

  /** The mode, and the nil dereference, in terms of how many interfaces each config has in each role. */
  lemma DiscoveredMode(configs: seq<PtpConfig>)
    ensures Classification(ShapesOf(configs)) == ModeOf(configs)
    ensures ReadsNil(ShapesOf(configs)) <==> exists c :: c in configs && MastersOnly(c, None)
  {
    CountedPlaces(configs);
    ShapesAreOfConfigs(configs);
    forall c {
      ShapeMeans(c);
    }
    var shapes := ShapesOf(configs);
    hide Boundaries, Secondaries, BothRolesAt, SecondaryAt, ShapeOf, ShapesOf, IsGrandMaster, MastersOnly, Count;
    forall s ensures s in shapes <==> exists c :: c in configs && ShapeOf(c) == s {
      ShapesMember(configs, shapes, s);
    }
  }

  lemma ShapesMember(configs: seq<PtpConfig>, shapes: seq<Shape>, s: Shape)
    requires |shapes| == |configs| && forall i :: 0 <= i < |configs| ==> shapes[i] == ShapeOf(configs[i])
    ensures s in shapes <==> exists c :: c in configs && ShapeOf(c) == s
  {
    hide ShapeOf;
    if s in shapes {
      var i :| 0 <= i < |shapes| && shapes[i] == s;
      assert configs[i] in configs;
    }
  }

  lemma ClaimsAreTakes(configs: seq<PtpConfig>, f: Field, j: nat)
    ensures ClaimsAt(ShapesOf(configs), f, j) <==> Takes(configs, f, j)
  {
    ShapesAreOfConfigs(configs);
    if j < |configs| {
      ShapesOfPrefix(configs, j);
      CountedPlaces(configs[..j]);
      ShapeMeans(configs[j]);
    }
    hide Boundaries, Secondaries, BothRolesAt, SecondaryAt, ShapeOf, ShapesOf, IsGrandMaster, HasBothRoles;
  }

  lemma ShapesOfPrefix(configs: seq<PtpConfig>, j: nat)
    requires j <= |configs|
    ensures |ShapesOf(configs)| == |configs| && ShapesOf(configs)[..j] == ShapesOf(configs[..j])
  {
    ShapesAreOfConfigs(configs);
    ShapesAreOfConfigs(configs[..j]);
    hide ShapesOf, ShapeOf;
  }

  lemma RemembersIsHolds(value: Option<PtpConfig>, before: Option<PtpConfig>, configs: seq<PtpConfig>, f: Field)
    requires Remembers(value, before, configs, ShapesOf(configs), f)
    ensures Holds(value, before, configs, f)
  {
    hide ClaimsAt, ShapesOf, Takes, Remembers, Holds;
    forall j: nat ensures ClaimsAt(ShapesOf(configs), f, j) <==> Takes(configs, f, j) {
      ClaimsAreTakes(configs, f, j);
    }
    SameClaims(value, before, configs, ShapesOf(configs), f);
  }

  lemma SameClaims(value: Option<PtpConfig>, before: Option<PtpConfig>, configs: seq<PtpConfig>, shapes: seq<Shape>,
                   f: Field)
    requires Remembers(value, before, configs, shapes, f)
    requires forall j: nat :: ClaimsAt(shapes, f, j) <==> Takes(configs, f, j)
    ensures Holds(value, before, configs, f)
  {
    hide ClaimsAt, Takes;
    forall j: nat | Takes(configs, f, j) && (forall i: nat :: i > j ==> !Takes(configs, f, i))
      ensures LastClaim(shapes, f, j)
    {
    }
    TakesNeedsPlace(configs, f);
  }

  lemma TakesNeedsPlace(configs: seq<PtpConfig>, f: Field)
    ensures forall j: nat :: Takes(configs, f, j) ==> j < |configs|
  {
  }

  /** Only the first profile of a config counts. */
  lemma FirstProfileDecides(c: PtpConfig, c': PtpConfig, role: Role)
    requires |c.profiles| > 0 && |c'.profiles| > 0
    requires c.profiles[0].iface == c'.profiles[0].iface && c.profiles[0].ptp4lConf == c'.profiles[0].ptp4lConf
    ensures Count(c, role) == Count(c', role)
  {
  }

  /** What one config on its own is classified as. */
  lemma LoneClassification(c: PtpConfig)
    ensures Classification(ShapesOf([c])) ==
              if Count(c, Master) >= 1 && Count(c, Slave) >= 1 then Some(BoundaryClock)
              else if Count(c, Master) == 0 && Count(c, Slave) == 1 then Some(OrdinaryClock)
              else if IsGrandMaster(c) then Some(TelcoGrandMasterClock)
              else None
  {
    hide ShapeOf, IsGrandMaster, Count;
    LoneConfig(c);
    ShapeMeans(c);
    assert ShapeOf(c) in [ShapeOf(c)];
  }

  lemma LoneConfig(c: PtpConfig)
    ensures ShapesOf([c]) == [ShapeOf(c)]
    ensures Boundaries(ShapesOf([c])) == if ShapeOf(c).Boundary() then [ShapeOf(c)] else []
  {
    FlatMapOne(ShapeIn, c);
    FlatMapOne(BoundaryIn, ShapeOf(c));
  }

  /** `CreatePtpConfigBC` writes this text for its two interfaces. */
  function BoundaryClockText(masterName: string, slaveName: string): string {
    AddAll(BoundaryClockBase(), [Entry(slaveName, Slave), Entry(masterName, Master)])
  }

  lemma BoundaryClockRoles(masterName: string, slaveName: string, x: string)
    ensures LastRole([Entry(slaveName, Slave), Entry(masterName, Master)], x)
            == if x == masterName then Some(Master) else if x == slaveName then Some(Slave) else None
  {
    var entries := [Entry(slaveName, Slave), Entry(masterName, Master)];
    assert entries[..1] == [Entry(slaveName, Slave)] && entries[..1][..0] == [];
    assert LastRole(entries[..1], x) == if x == slaveName then Some(Slave) else LastRole(entries[..1][..0], x);
  }

  /** The text written for a boundary clock has exactly its two interfaces, in their roles, unless they are one. */
  lemma BoundaryClockInterfaces(masterName: string, slaveName: string, order: seq<string>)
    requires WellFormed([Entry(slaveName, Slave), Entry(masterName, Master)])
    requires Enumerates(order, ParsedSections(Some(BoundaryClockText(masterName, slaveName))).Keys)
    ensures var sections := ParsedSections(Some(BoundaryClockText(masterName, slaveName)));
            && InterfacesIn(sections, None, Master, order) == [masterName]
            && InterfacesIn(sections, None, Slave, order) == if slaveName != masterName then [slaveName] else []
  {
    var entries := [Entry(slaveName, Slave), Entry(masterName, Master)];
    var sections := ParsedSections(Some(BoundaryClockText(masterName, slaveName)));
    BoundaryClockBaseIsNeutral();
    hide InterfacesIn, WellFormed, ParsedSections, Neutral, LastRole, BoundaryClockBase;
    forall x
      ensures LastRole(entries, x)
              == if x == masterName then Some(Master) else if x == slaveName then Some(Slave) else None
    {
      BoundaryClockRoles(masterName, slaveName, x);
    }
    PrintedInterfaces(BoundaryClockBase(), entries, Master, order);
    OneOrNone(InterfacesIn(sections, None, Master, order), masterName);
    PrintedInterfaces(BoundaryClockBase(), entries, Slave, order);
    OneOrNone(InterfacesIn(sections, None, Slave, order), slaveName);
  }

  /** A config generated for a boundary clock is classified as one iff its two interfaces differ. */
  lemma GeneratedBoundaryClock(config: PtpConfig, masterName: string, slaveName: string)
    requires WellFormed([Entry(slaveName, Slave), Entry(masterName, Master)])
    requires |config.profiles| == 1 && config.profiles[0].iface.None?
    requires FirstConf(config) == Some(BoundaryClockText(masterName, slaveName))
    ensures Count(config, Master) == 1
    ensures Count(config, Slave) == if slaveName != masterName then 1 else 0
    ensures Classification(ShapesOf([config])) == if slaveName != masterName then Some(BoundaryClock) else None
  {
    hide InterfacesIn, BoundaryClockText, WellFormed, Enumerates, ParsedSections, Classification, ShapesOf;
    var keys := ParsedSections(FirstConf(config)).Keys;
    AnEnumerationEnumerates(keys);
    BoundaryClockInterfaces(masterName, slaveName, AnEnumeration(keys));
    LoneClassification(config);
  }

  lemma SizeOfDistinct(names: seq<string>)
    requires NoDuplicates(names)
    ensures |names| >= 1 <==> exists x :: x in names
    ensures |names| >= 2 <==> exists x, y :: x in names && y in names && x != y
  {
    if |names| >= 1 {
      assert names[0] in names;
    }
    if |names| >= 2 {
      assert names[0] in names && names[1] in names;
    }
  }

  /** The config's one profile has no interface of its own, and its text is printed for these entries. */
  ghost predicate PrintedFor(config: PtpConfig, c: string, entries: seq<Entry>) {
    && |config.profiles| == 1 && config.profiles[0].iface.None? && Neutral(c) && WellFormed(entries)
    && FirstConf(config) == Some(AddAll(c, entries))
  }

  /** The text was last asked for `x` in this role. */
  predicate Asked(entries: seq<Entry>, role: Role, x: string) {
    LastRole(entries, x) == Some(role)
  }

  ghost predicate AskedOnce(entries: seq<Entry>, role: Role) {
    exists x :: Asked(entries, role, x)
  }

  ghost predicate AskedTwice(entries: seq<Entry>, role: Role) {
    exists x, y :: Asked(entries, role, x) && Asked(entries, role, y) && x != y
  }

  lemma PrintedCount(config: PtpConfig, c: string, entries: seq<Entry>, role: Role)
    requires PrintedFor(config, c, entries)
    ensures Count(config, role) >= 1 <==> AskedOnce(entries, role)
    ensures Count(config, role) >= 2 <==> AskedTwice(entries, role)
  {
    hide AddAll, WellFormed, Neutral, ParsedSections, InterfacesIn, LastRole, Enumerates, AskedOnce, AskedTwice;
    var sections := ParsedSections(FirstConf(config));
    var order := AnEnumeration(sections.Keys);
    AnEnumerationEnumerates(sections.Keys);
    PrintedInterfaces(c, entries, role, order);
    SizeOfAsked(InterfacesIn(sections, None, role, order), entries, role);
  }

  lemma SizeOfAsked(names: seq<string>, entries: seq<Entry>, role: Role)
    requires NoDuplicates(names) && forall x :: x in names <==> LastRole(entries, x) == Some(role)
    ensures |names| >= 1 <==> AskedOnce(entries, role)
    ensures |names| >= 2 <==> AskedTwice(entries, role)
  {
    forall x ensures x in names <==> Asked(entries, role, x) {}
    hide Asked;
    SizeOfDistinct(names);
  }

  /**
   The mode of a printed config: a boundary clock iff a master and a slave were asked for, an
   ordinary clock iff one slave and nothing else, and a grand master iff several masters and
   nothing else, with a `ts2phcConf` that is not empty. A nil one is dereferenced.
   */
  lemma PrintedMode(config: PtpConfig, c: string, entries: seq<Entry>)
    requires PrintedFor(config, c, entries)
    ensures var conf := config.profiles[0].ts2phcConf;
            Classification(ShapesOf([config])) ==
              if AskedOnce(entries, Master) && AskedOnce(entries, Slave) then Some(BoundaryClock)
              else if AskedOnce(entries, Slave) && !AskedTwice(entries, Slave) then Some(OrdinaryClock)
              else if AskedTwice(entries, Master) && !AskedOnce(entries, Slave) && conf.Some? && conf.value != "" then
                Some(TelcoGrandMasterClock)
              else None
    ensures ReadsNil(ShapesOf([config])) <==>
              AskedTwice(entries, Master) && !AskedOnce(entries, Slave) && config.profiles[0].ts2phcConf.None?
  {
    PrintedCount(config, c, entries, Master);
    PrintedCount(config, c, entries, Slave);
    assert |config.profiles| == 1;
    hide Count, AskedOnce, AskedTwice, Classification, ShapesOf, PrintedFor, BothRolesAt, SecondaryAt;
    LoneClassification(config);
    DiscoveredMode([config]);
    assert [config][0] in [config];
    var conf := config.profiles[0].ts2phcConf;
    if Count(config, Master) >= 2 && Count(config, Slave) == 0 && conf.Some? {
      assert MastersOnly(config, Some(conf.value));
    }
  }

  /** With no role in any section, a profile's own interface is its only one, and a slave. */
  lemma RolelessInterfaces(sections: Sections, x: string, order: seq<string>)
    requires Enumerates(order, sections.Keys)
    requires forall k :: k in sections ==> MASTER_ONLY !in sections[k]
    ensures InterfacesIn(sections, Some(x), Master, order) == [] && InterfacesIn(sections, Some(x), Slave, order) == [x]
  {
    SlaveFallsBack(sections, x, order);
    var names := Collected(sections, order, Master);
    if names != [] {
      CollectedMember(sections, order, Master, names[0]);
    }
  }

  lemma NeutralIsRoleless(c: string)
    requires Neutral(c)
    ensures forall k :: k in ParsedSections(Some(c)) ==> MASTER_ONLY !in ParsedSections(Some(c))[k]
  {
  }

  /** A config generated for an ordinary clock has its own interface as only slave, and is classified as one. */
  lemma GeneratedOrdinaryClock(config: PtpConfig, slaveName: string)
    requires |config.profiles| == 1 && config.profiles[0].iface == Some(slaveName)
    requires FirstConf(config) == Some(BasePtp4lConfig())
    ensures Count(config, Master) == 0 && Count(config, Slave) == 1
    ensures Classification(ShapesOf([config])) == Some(OrdinaryClock)
  {
    BaseIsNeutral();
    hide InterfacesIn, Enumerates, ParsedSections, BasePtp4lConfig, Neutral, Classification, ShapesOf;
    NeutralIsRoleless(BasePtp4lConfig());
    var sections := ParsedSections(FirstConf(config));
    AnEnumerationEnumerates(sections.Keys);
    RolelessInterfaces(sections, slaveName, AnEnumeration(sections.Keys));
    LoneClassification(config);
  }

  lemma TwoNames(names: seq<string>, a: string, b: string)
    requires NoDuplicates(names) && a != b && forall x :: x in names <==> x == a || x == b
    ensures |names| == 2
  {
    assert a in names && b in names;
    var i: nat, j: nat :| i < |names| && j < |names| && names[i] == a && names[j] == b;
    var other := if i != 0 && j != 0 then 0 else if i != 1 && j != 1 then 1 else 2;
    if other < |names| {
      NameIsAt(names, a, b, i, j, other);
    }
  }

  lemma NameIsAt(names: seq<string>, a: string, b: string, i: nat, j: nat, k: nat)
    requires NoDuplicates(names) && forall x :: x in names ==> x == a || x == b
    requires i < |names| && j < |names| && k < |names| && names[i] == a && names[j] == b
    ensures k == i || k == j
  {
    assert names[k] in names;
  }

  lemma HeadIsMember(s: seq<string>)
    requires s != []
    ensures exists x :: x in s
  {
    assert s[0] in s;
  }

  /** A config with two masters, no slave and no `ts2phcConf` makes the discovery dereference nil. */
  lemma TwoMastersReadNil(config: PtpConfig, a: string, b: string)
    requires WellFormed([Entry(a, Master), Entry(b, Master)]) && a != b
    requires |config.profiles| == 1 && config.profiles[0].iface.None? && config.profiles[0].ts2phcConf.None?
    requires FirstConf(config) == Some(AddAll(BasePtp4lConfig(), [Entry(a, Master), Entry(b, Master)]))
    ensures ReadsNil(ShapesOf([config]))
  {
    var entries := [Entry(a, Master), Entry(b, Master)];
    BaseIsNeutral();
    hide BasePtp4lConfig, AddAll, WellFormed, Neutral, ParsedSections, InterfacesIn, LastRole, Enumerates, ShapesOf;
    TwoMastersCount(config, BasePtp4lConfig(), entries, a, b);
    NilIsRead([config], config);
  }

  lemma TwoMastersCount(config: PtpConfig, c: string, entries: seq<Entry>, a: string, b: string)
    requires entries == [Entry(a, Master), Entry(b, Master)] && a != b && WellFormed(entries) && Neutral(c)
    requires |config.profiles| == 1 && config.profiles[0].iface.None? && FirstConf(config) == Some(AddAll(c, entries))
    ensures Count(config, Master) == 2 && Count(config, Slave) == 0
  {
    hide AddAll, WellFormed, Neutral, ParsedSections, InterfacesIn, LastRole, Enumerates;
    var sections := ParsedSections(FirstConf(config));
    var order := AnEnumeration(sections.Keys);
    AnEnumerationEnumerates(sections.Keys);
    forall x ensures LastRole(entries, x) == if x == a || x == b then Some(Master) else None {
      TwoMasterRoles(a, b, x);
    }
    PrintedInterfaces(c, entries, Master, order);
    TwoNames(InterfacesIn(sections, None, Master, order), a, b);
    PrintedInterfaces(c, entries, Slave, order);
    var slaves := InterfacesIn(sections, None, Slave, order);
    if slaves != [] {
      HeadIsMember(slaves);
    }
  }

  lemma TwoMasterRoles(a: string, b: string, x: string)
    ensures LastRole([Entry(a, Master), Entry(b, Master)], x) == if x == a || x == b then Some(Master) else None
  {
    var entries := [Entry(a, Master), Entry(b, Master)];
    assert entries[..1] == [Entry(a, Master)] && entries[..1][..0] == [];
    assert LastRole(entries[..1], x) == if x == a then Some(Master) else LastRole(entries[..1][..0], x);
  }
}

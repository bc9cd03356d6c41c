/** The create-if-absent steps of the operator reconciler (`controllers/ptpoperatorconfig_controller.go`). */
module OperatorSync {
  import opened Prelude
  import opened PtpTypes
  import opened NodeAssignment

  /** `NodePtpDevice`; the daemon fills in the status. */
  datatype Device = Device(status: string)

  const EMPTY_DEVICE := Device("")

  /** The objects in the operator's namespace that the reconciler creates. */
  datatype Objects = Objects(
    operatorConfig: Option<map<string, string>>,    // its node selector
    devices: map<string, Device>,
    ptpMap: Option<NodeData>,
    leapMap: Option<map<string, string>>)

  /** What goes wrong on the way to one object: looking it up, or creating it. */
  datatype Fault = NoFault | GetFails | CreateFails

  /** What goes wrong in one reconcile. A failing owner reference is a failing create. */
  datatype Faults = Faults(
    operatorConfig: Fault,
    listNodes: bool,
    device: nat -> Fault,
    ptpMap: Fault,
    leapMap: Fault,
    daemon: bool)

  // ----- the steps as functions -----

  /** Create-if-absent: the object afterwards, and whether the step fails. */
  function Ensured<T>(existing: Option<T>, initial: T, fault: Fault): (Option<T>, bool) {
    if fault == GetFails then (existing, true)
    else if existing.Some? then (existing, false)
    else if fault == CreateFails then (None, true)
    else (Some(initial), false)
  }

  /** Node `i` of the list makes the synchronisation fail, if nothing before it does. */
  predicate Fails(devices: map<string, Device>, names: seq<string>, fault: nat -> Fault, i: nat)
    requires i < |names|
  {
    fault(i) == GetFails || (fault(i) == CreateFails && names[i] !in devices && names[i] !in names[..i])
  }

  /** How many nodes are served before the synchronisation ends. */
  function Served(devices: map<string, Device>, names: seq<string>, fault: nat -> Fault, i: nat): (k: nat)
    requires i <= |names|
    ensures i <= k <= |names|
    ensures forall j :: i <= j < k ==> !Fails(devices, names, fault, j)
    ensures k < |names| ==> Fails(devices, names, fault, k)
    decreases |names| - i
  {
    if i == |names| || Fails(devices, names, fault, i) then i else Served(devices, names, fault, i + 1)
  }

  function WithDevices(devices: map<string, Device>, names: seq<string>): map<string, Device> {
    map n | n in devices.Keys + (set n | n in names) :: if n in devices then devices[n] else EMPTY_DEVICE
  }

  function NamesOf(nodes: seq<Node>): (r: seq<string>)
    ensures |r| == |nodes| && forall i :: 0 <= i < |nodes| ==> r[i] == nodes[i].name
  {
    seq(|nodes|, i requires 0 <= i < |nodes| => nodes[i].name)
  }

  /** What one reconcile leaves behind, and whether it returns an error. */
  function Reconciled(s: Objects, nodes: seq<Node>, f: Faults): (Objects, bool) {
    if s.operatorConfig.None? || f.operatorConfig == GetFails then
      var (config, err) := Ensured(s.operatorConfig, map[], f.operatorConfig);
      (s.(operatorConfig := config), err)
    else if f.listNodes then (s, true)
    else
      var names := NamesOf(nodes);
      var k := Served(s.devices, names, f.device, 0);
      var s1 := s.(devices := WithDevices(s.devices, names[..k]));
      if k < |names| then (s1, true)
      else
        var (ptpMap, ptpErr) := Ensured(s.ptpMap, map[], f.ptpMap);
        if ptpErr then (s1, true)
        else
          var (leapMap, leapErr) := Ensured(s.leapMap, map[], f.leapMap);
          (s1.(ptpMap := ptpMap, leapMap := leapMap), leapErr || f.daemon)
  }

  lemma NoDeviceYet(devices: map<string, Device>)
    ensures WithDevices(devices, []) == devices
  {
  }

  /** Serving one more node gives it a device if it had none. */
  lemma OneMoreDevice(devices: map<string, Device>, names: seq<string>, i: nat)
    requires i < |names|
    ensures var before := WithDevices(devices, names[..i]);
            && (names[i] in before <==> names[i] in devices || names[i] in names[..i])
            && WithDevices(devices, names[..i + 1])
               == if names[i] in before then before else before[names[i] := EMPTY_DEVICE]
  {
  }

  lemma ServedStep(devices: map<string, Device>, names: seq<string>, fault: nat -> Fault, i: nat)
    requires i < |names|
    ensures Served(devices, names, fault, i)
            == if Fails(devices, names, fault, i) then i else Served(devices, names, fault, i + 1)
  {
  }

  // ----- the code -----

  class Cluster {
    var operatorConfig: Option<map<string, string>>
    var devices: map<string, Device>
    var ptpMap: Option<NodeData>
    var leapMap: Option<map<string, string>>

    constructor (s: Objects)
      ensures Contents() == s
    {
      operatorConfig, devices, ptpMap, leapMap := s.operatorConfig, s.devices, s.ptpMap, s.leapMap;
    }

    function Contents(): Objects
      reads this
    {
      Objects(operatorConfig, devices, ptpMap, leapMap)
    }

    /** `syncNodePtpDevice`. */
    method SyncNodePtpDevice(nodes: seq<Node>, fault: nat -> Fault) returns (err: bool)
      modifies this`devices
      ensures var k := Served(old(devices), NamesOf(nodes), fault, 0);
              err == (k < |nodes|) && devices == WithDevices(old(devices), NamesOf(nodes)[..k])
    {
      hide WithDevices, Served;
      ghost var names := NamesOf(nodes);
      NoDeviceYet(devices);
      assert names[..0] == [];
      for i := 0 to |nodes|
        invariant devices == WithDevices(old(devices), names[..i])
        invariant Served(old(devices), names, fault, 0) == Served(old(devices), names, fault, i)
      {
        OneMoreDevice(old(devices), names, i);
        ServedStep(old(devices), names, fault, i);
        if fault(i) == GetFails {
          return true;
        }
        if nodes[i].name !in devices {
          if fault(i) == CreateFails {
            return true;
          }
          devices := devices[nodes[i].name := EMPTY_DEVICE];
        }
      }
      return false;
    }

    /** `createPTPConfigMap`. */
    method CreatePTPConfigMap(fault: Fault) returns (err: bool)
      modifies this`ptpMap
      ensures (ptpMap, err) == Ensured(old(ptpMap), map[], fault)
    {
      if fault == GetFails {
        return true;
      }
      if ptpMap.None? {
        if fault == CreateFails {
          return true;
        }
        ptpMap := Some(map[]);
      }
      return false;
    }

    /** `createLeapConfigMap`. */
    method CreateLeapConfigMap(fault: Fault) returns (err: bool)
      modifies this`leapMap
      ensures (leapMap, err) == Ensured(old(leapMap), map[], fault)
    {
      if fault == GetFails {
        return true;
      }
      if leapMap.None? {
        if fault == CreateFails {
          return true;
        }
        leapMap := Some(map[]);
      }
      return false;
    }

    /** `Reconcile`; what the daemon synchronisation applies is not among these objects. */
    method Reconcile(nodes: seq<Node>, f: Faults) returns (err: bool)
      modifies this
      ensures (Contents(), err) == Reconciled(old(Contents()), nodes, f)
    {
      hide WithDevices, Served;
      if f.operatorConfig == GetFails {
        return true;
      }
      if operatorConfig.None? {
        if f.operatorConfig == CreateFails {
          return true;
        }
        operatorConfig := Some(map[]);
        return false;
      }
      if f.listNodes {
        return true;
      }
      err := SyncNodePtpDevice(nodes, f.device);
      if err {
        return true;
      }
      err := CreatePTPConfigMap(f.ptpMap);
      if err {
        return true;
      }
      err := CreateLeapConfigMap(f.leapMap);
      if err {
        return true;
      }
      return f.daemon;
    }
  }

  // ----- laws of one reconcile -----

  /** The synchronisation succeeds iff no node fails, and then every listed node has a device. */
  lemma SyncSucceedsIff(devices: map<string, Device>, names: seq<string>, fault: nat -> Fault)
    ensures var k := Served(devices, names, fault, 0);
            && (k == |names| <==> forall i :: 0 <= i < |names| ==> !Fails(devices, names, fault, i))
            && (k == |names| ==> forall n :: n in names ==> n in WithDevices(devices, names[..k]))
  {
  }

  /** The listed nodes that have no device. */
  function Lacking(devices: map<string, Device>, names: seq<string>): set<string> {
    set n | n in names && n !in devices
  }

  /**
   Every successful create takes exactly one name out of the listed nodes without a device:
   what is created and what is still lacking add up to what was lacking.
   */
  lemma CreatesShrinkLacking(devices: map<string, Device>, names: seq<string>, k: nat)
    requires k <= |names|
    ensures var devices' := WithDevices(devices, names[..k]);
            && devices'.Keys - devices.Keys <= Lacking(devices, names)
            && Lacking(devices', names) == Lacking(devices, names) - (devices'.Keys - devices.Keys)
            && |Lacking(devices', names)| + |devices'.Keys - devices.Keys| == |Lacking(devices, names)|
  {
    var devices' := WithDevices(devices, names[..k]);
    var created := devices'.Keys - devices.Keys;
    forall n | n in created ensures n in names {
      assert n in names[..k];
    }
    assert created <= Lacking(devices, names);
    assert Lacking(devices', names) == Lacking(devices, names) - created;
  }

  /** Everything that was there is still there, with the same contents. */
  ghost predicate Keeps(s: Objects, s': Objects) {
    && (s.operatorConfig.Some? ==> s'.operatorConfig == s.operatorConfig)
    && (s.ptpMap.Some? ==> s'.ptpMap == s.ptpMap)
    && (s.leapMap.Some? ==> s'.leapMap == s.leapMap)
    && forall n :: n in s.devices ==> n in s'.devices && s'.devices[n] == s.devices[n]
  }

  /** What is new was just created: empty, and for a listed node. */
  ghost predicate OnlyAdds(s: Objects, s': Objects, names: set<string>) {
    && (s.operatorConfig.None? && s'.operatorConfig.Some? ==> s'.operatorConfig == Some(map[]))
    && (s.ptpMap.None? && s'.ptpMap.Some? ==> s'.ptpMap == Some(map[]))
    && (s.leapMap.None? && s'.leapMap.Some? ==> s'.leapMap == Some(map[]))
    && forall n :: n in s'.devices && n !in s.devices ==> n in names && s'.devices[n].status == ""
  }

  lemma ReconcileOnlyCreates(s: Objects, nodes: seq<Node>, f: Faults)
    ensures Keeps(s, Reconciled(s, nodes, f).0)
    ensures OnlyAdds(s, Reconciled(s, nodes, f).0, set n | n in NamesOf(nodes))
  {
    var names := NamesOf(nodes);
    var k := Served(s.devices, names, f.device, 0);
    forall n | n in names[..k] ensures n in names {}
  }

  /** Everything the operator is to create for these nodes is there. */
  ghost predicate Complete(s: Objects, names: seq<string>) {
    && s.operatorConfig.Some? && s.ptpMap.Some? && s.leapMap.Some?
    && forall n :: n in names ==> n in s.devices
  }

  /**
   A reconcile that finds the operator config and reports no error leaves nothing missing.
   One that has to create the config first returns without looking at anything else.
   */
  lemma SuccessMeansComplete(s: Objects, nodes: seq<Node>, f: Faults)
    requires !Reconciled(s, nodes, f).1
    ensures s.operatorConfig.Some? ==> Complete(Reconciled(s, nodes, f).0, NamesOf(nodes))
    ensures s.operatorConfig.None? ==> Reconciled(s, nodes, f).0 == s.(operatorConfig := Some(map[]))
  {
  }

  /** Creating what is absent fails iff looking it up fails, or creating it does. */
  predicate EnsureFails(there: bool, fault: Fault) {
    fault == GetFails || (!there && fault == CreateFails)
  }

  /**
   When a reconcile reports an error: it cannot look up or create the operator config, or it
   finds that config and one of the later calls fails that it gets to.
   */
  lemma ErrorIff(s: Objects, nodes: seq<Node>, f: Faults)
    ensures Reconciled(s, nodes, f).1 <==>
            || EnsureFails(s.operatorConfig.Some?, f.operatorConfig)
            || (s.operatorConfig.Some? &&
                (|| f.listNodes || f.daemon
                 || EnsureFails(s.ptpMap.Some?, f.ptpMap) || EnsureFails(s.leapMap.Some?, f.leapMap)
                 || exists i :: 0 <= i < |nodes| && EnsureFails(ServedBefore(s, nodes, i), f.device(i))))
  {
    var names := NamesOf(nodes);
    forall i | 0 <= i < |nodes|
      ensures Fails(s.devices, names, f.device, i) <==> EnsureFails(ServedBefore(s, nodes, i), f.device(i))
    {
      assert forall j :: 0 <= j < i ==> names[..i][j] == nodes[j].name;
    }
  }

  /** The node has a device when its turn comes. */
  ghost predicate ServedBefore(s: Objects, nodes: seq<Node>, i: nat)
    requires i < |nodes|
  {
    nodes[i].name in s.devices || exists j :: 0 <= j < i && nodes[j].name == nodes[i].name
  }

  /** Without a fault there is no error. */
  lemma NoFaultNoError(s: Objects, nodes: seq<Node>, f: Faults)
    requires f.operatorConfig == f.ptpMap == f.leapMap == NoFault && !f.listNodes && !f.daemon
    requires forall i: nat :: f.device(i) == NoFault
    ensures !Reconciled(s, nodes, f).1
  {
    ErrorIff(s, nodes, f);
  }

  lemma {:induction false} SubsetIsSmaller(a: set<string>, b: set<string>)
    requires a <= b
    ensures |a| <= |b|
  {
    assert b == a + (b - a);
  }
}

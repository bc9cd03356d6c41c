/** The node-to-profiles map that `syncPtpConfig` builds (`controllers/ptpconfig_controller.go`). */
module NodeAssignment {
  import opened Prelude
  import opened PtpTypes
  import opened Recommendation
  import opened RecommendationLaws

  /** `json.Marshal` on the profiles of a node: their text, unless it fails. */
  type Encoder = seq<Profile> -> Option<string>

  /** The data of `ptp-configmap`. */
  type NodeData = map<string, string>

  /** The text a node gets. */
  ghost function NodeText(encode: Encoder, cfgs: seq<PtpConfig>, node: Node): Outcome<string> {
    match Recommended(cfgs, node)
    case Panic => Panic
    case Err => Err
    case Ok(profiles) => if encode(profiles).Some? then Ok(encode(profiles).value) else Err
  }

  /** The whole map, or the failure of the first node that has one. */
  ghost function Assignment(encode: Encoder, cfgs: seq<PtpConfig>, nodes: seq<Node>): Outcome<NodeData> {
    if nodes == [] then Ok(map[])
    else
      var before, node := Assignment(encode, cfgs, nodes[..|nodes| - 1]), nodes[|nodes| - 1];
      if !before.Ok? then before
      else
        match NodeText(encode, cfgs, node)
        case Ok(text) => Ok(before.value[node.name := text])
        case Err => Err
        case Panic => Panic
  }

  lemma {:induction false} FailureStays(encode: Encoder, cfgs: seq<PtpConfig>, nodes: seq<Node>, k: nat)
    requires k <= |nodes| && !Assignment(encode, cfgs, nodes[..k]).Ok?
    ensures Assignment(encode, cfgs, nodes) == Assignment(encode, cfgs, nodes[..k])
  {
    hide NodeText;
    if k < |nodes| {
      var init := nodes[..|nodes| - 1];
      assert init[..k] == nodes[..k];
      FailureStays(encode, cfgs, init, k);
    } else {
      assert nodes[..k] == nodes;
    }
  }

  /** No later node of the list has this one's name. */
  ghost predicate LastOfName(nodes: seq<Node>, i: nat)
    requires i < |nodes|
  {
    forall j :: i < j < |nodes| ==> nodes[j].name != nodes[i].name
  }

  ghost predicate Listed(nodes: seq<Node>, name: string) {
    exists i :: 0 <= i < |nodes| && nodes[i].name == name
  }

  /** The map is all or nothing: it exists iff every listed node has a text. */
  lemma {:induction false} AssignmentExistsIff(encode: Encoder, cfgs: seq<PtpConfig>, nodes: seq<Node>)
    ensures Assignment(encode, cfgs, nodes).Ok? <==> forall n :: n in nodes ==> NodeText(encode, cfgs, n).Ok?
  {
    hide NodeText;
    if nodes != [] {
      var init, last := nodes[..|nodes| - 1], nodes[|nodes| - 1];
      AssignmentExistsIff(encode, cfgs, init);
      assert nodes == init + [last];
    }
  }

  lemma ListedOneMore(init: seq<Node>, last: Node, name: string)
    ensures Listed(init + [last], name) <==> Listed(init, name) || last.name == name
  {
    var nodes := init + [last];
    if i :| 0 <= i < |init| && init[i].name == name {
      assert nodes[i].name == name;
    }
    assert nodes[|init|] == last;
  }

  /** It then has an entry for exactly the listed names, each the text of the last node of that name. */
  lemma {:induction false} AssignmentContents(encode: Encoder, cfgs: seq<PtpConfig>, nodes: seq<Node>)
    requires Assignment(encode, cfgs, nodes).Ok?
    ensures var data := Assignment(encode, cfgs, nodes).value;
            && (forall name :: name in data <==> Listed(nodes, name))
            && (forall i: nat :: i < |nodes| && LastOfName(nodes, i) ==>
                  nodes[i].name in data && Ok(data[nodes[i].name]) == NodeText(encode, cfgs, nodes[i]))
  {
    hide NodeText, Listed;
    if nodes == [] {
      NothingListed();
    } else {
      var init, last := nodes[..|nodes| - 1], nodes[|nodes| - 1];
      AssignmentContents(encode, cfgs, init);
      assert nodes == init + [last];
      var data := Assignment(encode, cfgs, nodes).value;
      forall name ensures name in data <==> Listed(nodes, name) {
        ListedOneMore(init, last, name);
      }
      forall i: nat | i < |init| && LastOfName(nodes, i) ensures LastOfName(init, i) && nodes[i].name != last.name {
        assert nodes[|init|].name != nodes[i].name;
      }
    }
  }

  lemma NothingListed()
    ensures forall name :: !Listed([], name)
  {
  }

  /** Every listed node has a selection, and that can be encoded. */
  ghost predicate Encodable(encode: Encoder, cfgs: seq<PtpConfig>, nodes: seq<Node>) {
    forall n :: n in nodes ==> Recommended(cfgs, n).Ok? && encode(Recommended(cfgs, n).value).Some?
  }

  /** The data has just the listed names, each with all profiles selected for the last node of that name. */
  ghost predicate Stores(encode: Encoder, cfgs: seq<PtpConfig>, nodes: seq<Node>, data: NodeData) {
    && Encodable(encode, cfgs, nodes)
    && (forall name :: name in data <==> exists n :: n in nodes && n.name == name)
    && forall i: nat :: i < |nodes| && LastOfName(nodes, i) ==>
         nodes[i].name in data && encode(Recommended(cfgs, nodes[i]).value) == Some(data[nodes[i].name])
  }

  lemma ListedIsNamed(nodes: seq<Node>, name: string)
    ensures Listed(nodes, name) <==> exists n :: n in nodes && n.name == name
  {
    if i :| 0 <= i < |nodes| && nodes[i].name == name {
      assert nodes[i] in nodes;
    }
  }

  /** Every name that is listed has a last node. */
  lemma LastNode(nodes: seq<Node>, name: string) returns (i: nat)
    requires exists n :: n in nodes && n.name == name
    ensures i < |nodes| && nodes[i].name == name && LastOfName(nodes, i)
  {
    i := |nodes| - 1;
    while nodes[i].name != name
      invariant i < |nodes| && forall j :: i < j < |nodes| ==> nodes[j].name != name
      decreases i
    {
      NotYetFound(nodes, name, i);
      i := i - 1;
    }
  }

  lemma NotYetFound(nodes: seq<Node>, name: string, i: nat)
    requires i < |nodes| && (forall j :: i <= j < |nodes| ==> nodes[j].name != name)
    requires exists n :: n in nodes && n.name == name
    ensures i > 0
  {
    var j :| 0 <= j < |nodes| && nodes[j].name == name;
  }

  /** The map is this and nothing else. */
  lemma StoredIsUnique(encode: Encoder, cfgs: seq<PtpConfig>, nodes: seq<Node>, data: NodeData, data': NodeData)
    requires Stores(encode, cfgs, nodes, data) && Stores(encode, cfgs, nodes, data')
    ensures data == data'
  {
    hide Encodable, LastOfName, Recommended;
    forall name | name in data ensures name in data' && data[name] == data'[name] {
      var i := LastNode(nodes, name);
    }
    assert forall name :: name in data <==> name in data';
  }

  /** The map that is computed, in terms of the selection for each node and of the encoding alone. */
  lemma AssignmentMeans(encode: Encoder, cfgs: seq<PtpConfig>, nodes: seq<Node>)
    ensures Assignment(encode, cfgs, nodes).Ok? <==> Encodable(encode, cfgs, nodes)
    ensures Assignment(encode, cfgs, nodes).Ok? ==>
              Stores(encode, cfgs, nodes, Assignment(encode, cfgs, nodes).value)
  {
    hide Recommended, Assignment, Listed, LastOfName;
    AssignmentExistsIff(encode, cfgs, nodes);
    if Assignment(encode, cfgs, nodes).Ok? {
      AssignmentContents(encode, cfgs, nodes);
      forall name ensures Listed(nodes, name) <==> exists n :: n in nodes && n.name == name {
        ListedIsNamed(nodes, name);
      }
    }
  }

  /** A map that stores all profiles of every node is the one that is computed. */
  lemma AssignmentIsTheStoredMap(encode: Encoder, cfgs: seq<PtpConfig>, nodes: seq<Node>, data: NodeData)
    ensures Assignment(encode, cfgs, nodes) == Ok(data) <==> Stores(encode, cfgs, nodes, data)
  {
    AssignmentMeans(encode, cfgs, nodes);
    hide Assignment, Encodable;
    if Stores(encode, cfgs, nodes, data) {
      StoredIsUnique(encode, cfgs, nodes, data, Assignment(encode, cfgs, nodes).value);
    }
  }

  /** The first node without a selection or without a text decides how the computation fails. */
  lemma {:induction false} FirstFailure(encode: Encoder, cfgs: seq<PtpConfig>, nodes: seq<Node>, i: nat)
    requires i < |nodes| && Encodable(encode, cfgs, nodes[..i]) && !Encodable(encode, cfgs, [nodes[i]])
    ensures Assignment(encode, cfgs, nodes) == if Recommended(cfgs, nodes[i]).Panic? then Panic else Err
  {
    hide Recommended;
    AssignmentMeans(encode, cfgs, nodes[..i]);
    assert nodes[..i + 1][..i] == nodes[..i];
    FailureStays(encode, cfgs, nodes, i + 1);
  }

  ghost predicate DistinctNames(nodes: seq<Node>) {
    forall i, j :: 0 <= i < j < |nodes| ==> nodes[i].name != nodes[j].name
  }

  lemma StoresDistinct(encode: Encoder, cfgs: seq<PtpConfig>, nodes: seq<Node>)
    ensures forall data :: Stores(encode, cfgs, nodes, data) && DistinctNames(nodes) ==>
              forall n :: n in nodes ==> n.name in data && encode(Recommended(cfgs, n).value) == Some(data[n.name])
  {
    hide Recommended, LastOfName;
    if DistinctNames(nodes) {
      forall n | n in nodes ensures exists i: nat :: i < |nodes| && nodes[i] == n && LastOfName(nodes, i) {
        PlaceOfNode(nodes, n);
      }
    }
  }

  /** The node loop of `syncPtpConfig`. */
  method BuildNodeMap(encode: Encoder, cfgs: seq<PtpConfig>, nodes: seq<Node>) returns (r: Outcome<NodeData>)
    ensures r == Assignment(encode, cfgs, nodes)
    ensures r.Ok? <==> forall n :: n in nodes ==>
              Recommended(cfgs, n).Ok? && encode(Recommended(cfgs, n).value).Some?
    ensures r.Ok? ==> forall name :: name in r.value <==> exists n :: n in nodes && n.name == name
    ensures r.Ok? && DistinctNames(nodes) ==>
              forall n :: n in nodes ==> encode(Recommended(cfgs, n).value) == Some(r.value[n.name])
  {
    hide Recommended;
    AssignmentMeans(encode, cfgs, nodes);
    StoresDistinct(encode, cfgs, nodes);
    hide LastOfName, DistinctNames;
    var data: NodeData := map[];
    for i := 0 to |nodes|
      invariant Assignment(encode, cfgs, nodes[..i]) == Ok(data)
    {
      assert nodes[..i + 1][..i] == nodes[..i];
      var profiles := GetRecommendProfiles(cfgs, nodes[i]);
      if !profiles.Ok? {
        FailureStays(encode, cfgs, nodes, i + 1);
        return if profiles.Panic? then Panic else Err;
      }
      var text := encode(profiles.value);
      if text.None? {
        FailureStays(encode, cfgs, nodes, i + 1);
        return Err;
      }
      data := data[nodes[i].name := text.value];
    }
    assert nodes[..|nodes|] == nodes;
    return Ok(data);
  }

  ghost predicate UniqueProfileNames(cfgs: seq<PtpConfig>) {
    forall n :: Multiplicity(AllProfiles(cfgs), n) <= 1
  }

  lemma ListedAt(nodes: seq<Node>, name: string) returns (i: nat)
    requires DistinctNames(nodes) && Listed(nodes, name)
    ensures i < |nodes| && nodes[i].name == name && LastOfName(nodes, i)
  {
    i :| i < |nodes| && nodes[i].name == name;
  }

  /** With distinct node names, the map has just the listed names, each with the text of its node. */
  lemma DistinctContents(encode: Encoder, cfgs: seq<PtpConfig>, nodes: seq<Node>, data: NodeData)
    requires DistinctNames(nodes)
    ensures Assignment(encode, cfgs, nodes) == Ok(data)
            <==> && (forall name :: name in data <==> Listed(nodes, name))
                 && (forall n :: n in nodes ==> n.name in data && NodeText(encode, cfgs, n) == Ok(data[n.name]))
  {
    hide NodeText, Assignment, Listed, DistinctNames;
    AssignmentExistsIff(encode, cfgs, nodes);
    if Assignment(encode, cfgs, nodes).Ok? {
      AssignmentContents(encode, cfgs, nodes);
      var data' := Assignment(encode, cfgs, nodes).value;
      forall n | n in nodes ensures n.name in data' && NodeText(encode, cfgs, n) == Ok(data'[n.name]) {
        PlaceOfNode(nodes, n);
      }
      if (forall name :: name in data <==> Listed(nodes, name))
         && (forall n :: n in nodes ==> n.name in data && NodeText(encode, cfgs, n) == Ok(data[n.name]))
      {
        forall name | name in data ensures data[name] == data'[name] {
          var i := ListedAt(nodes, name);
          assert nodes[i] in nodes;
        }
        assert data == data';
      }
    }
  }

  lemma PlaceOfNode(nodes: seq<Node>, n: Node)
    requires DistinctNames(nodes) && n in nodes
    ensures exists i: nat :: i < |nodes| && nodes[i] == n && LastOfName(nodes, i)
  {
    var i: nat :| i < |nodes| && nodes[i] == n;
    assert LastOfName(nodes, i);
  }

  /**
   With unique profile names, neither the order of the PtpConfigs, nor that of the entries
   in them, nor that of the nodes has any influence on the map.
   */
  lemma AssignmentIgnoresOrder(encode: Encoder, cfgs: seq<PtpConfig>, cfgs': seq<PtpConfig>,
                               nodes: seq<Node>, nodes': seq<Node>)
    requires SameEntries(cfgs, cfgs') && UniqueProfileNames(cfgs)
    requires multiset(nodes) == multiset(nodes') && DistinctNames(nodes) && DistinctNames(nodes')
    ensures Assignment(encode, cfgs, nodes).Ok? <==> Assignment(encode, cfgs', nodes').Ok?
    ensures Assignment(encode, cfgs, nodes).Ok? ==> Assignment(encode, cfgs, nodes) == Assignment(encode, cfgs', nodes')
  {
    hide Recommended, Assignment, SameEntries, DistinctNames, AllRecommends, AllProfiles, ChosenNames, Listed;
    forall n ensures NodeText(encode, cfgs, n) == NodeText(encode, cfgs', n) {
      OrderIsIrrelevant(cfgs, cfgs', n);
    }
    hide NodeText;
    SameMembers(nodes, nodes');
    AssignmentExistsIff(encode, cfgs, nodes);
    AssignmentExistsIff(encode, cfgs', nodes');
    if Assignment(encode, cfgs, nodes).Ok? {
      var data := Assignment(encode, cfgs, nodes).value;
      DistinctContents(encode, cfgs, nodes, data);
      forall name ensures Listed(nodes, name) <==> Listed(nodes', name) {
        SameNames(nodes, nodes', name);
      }
      DistinctContents(encode, cfgs', nodes', data);
    }
  }

  lemma SameNames(nodes: seq<Node>, nodes': seq<Node>, name: string)
    requires forall n :: n in nodes <==> n in nodes'
    ensures Listed(nodes, name) <==> Listed(nodes', name)
  {
    if i :| 0 <= i < |nodes| && nodes[i].name == name {
      assert nodes[i] in nodes';
    }
    if i :| 0 <= i < |nodes'| && nodes'[i].name == name {
      assert nodes'[i] in nodes;
    }
  }
}

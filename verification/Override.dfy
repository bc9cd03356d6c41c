/** The temporary override seen from the stored `ptp-configmap`: added, reconciled, deleted, reconciled. */
module Override {
  import opened Prelude
  import opened PtpTypes
  import opened Recommendation
  import opened Preemption
  import opened NodeAssignment
  import opened ConfigMapProtocol

  /** The override is meant for the node at position `t`, and for no other listed node. */
  ghost predicate OnlyTarget(c: PtpConfig, nodes: seq<Node>, t: nat)
    requires Mutable(c)
  {
    t < |nodes| && forall k :: 0 <= k < |nodes| && k != t ==> !Targeted(c, nodes[t].name, nodes[k])
  }

  /** The target gets the mutated profile as its text, every other node keeps the text it had. */
  lemma OverriddenText(encode: Encoder, cfgs: seq<PtpConfig>, i: nat, c: PtpConfig, profileName: string,
                       nodeName: string, node: Node)
    requires i <= |cfgs| && Mutable(c) && (node.name == nodeName || !Targeted(c, nodeName, node))
    requires var others := WithRemainder(cfgs, i, Mutated(c, profileName, nodeName));
             && Fresh(profileName, others) && NodeText(encode, others, node).Ok?
             && (node.name == nodeName ==> OutrankedByZero(AllRecommends(others), node))
    ensures var m := Mutated(c, profileName, nodeName);
            NodeText(encode, Added(cfgs, i, m), node)
            == if node.name == nodeName then
                 (if encode([m.profiles[0]]).Some? then Ok(encode([m.profiles[0]]).value) else Err)
               else NodeText(encode, WithRemainder(cfgs, i, m), node)
  {
    var m := Mutated(c, profileName, nodeName);
    assert m.profiles != [] && m.recommends != [];
    hide Recommended, AllRecommends, AllProfiles, OutrankedByZero, Fresh, Mutated, Added, WithRemainder, Targeted;
    if node.name == nodeName {
      NoNamelessProfile(WithRemainder(cfgs, i, m), node);
      TargetIsTargeted(c, node);
      OverrideTakesTarget(cfgs, i, c, profileName, nodeName, node);
    } else {
      OverrideSparesOtherNodes(cfgs, i, c, profileName, nodeName, node);
    }
  }

  /**
   Adding the override changes the map in the entry of its target alone, which becomes the
   text of the mutated profile, if the other entries that match the target are behind priority 0.
   */
  lemma OverrideOnMap(encode: Encoder, cfgs: seq<PtpConfig>, i: nat, c: PtpConfig, profileName: string,
                      nodes: seq<Node>, t: nat, data: NodeData)
    requires i <= |cfgs| && Mutable(c) && DistinctNames(nodes) && OnlyTarget(c, nodes, t)
    requires var m := Mutated(c, profileName, nodes[t].name);
             && Fresh(profileName, WithRemainder(cfgs, i, m))
             && OutrankedByZero(AllRecommends(WithRemainder(cfgs, i, m)), nodes[t])
             && Assignment(encode, WithRemainder(cfgs, i, m), nodes) == Ok(data)
             && encode([m.profiles[0]]).Some?
    ensures var m := Mutated(c, profileName, nodes[t].name);
            Assignment(encode, Added(cfgs, i, m), nodes)
            == Ok(data[nodes[t].name := encode([m.profiles[0]]).value])
  {
    var target := nodes[t].name;
    var m := Mutated(c, profileName, target);
    assert m.profiles != [] && m.recommends != [];
    hide NodeText, Assignment, AllRecommends, AllProfiles, OutrankedByZero, Fresh, Mutated, Added, WithRemainder,
      Targeted, Listed;
    DistinctContents(encode, WithRemainder(cfgs, i, m), nodes, data);
    var data' := data[target := encode([m.profiles[0]]).value];
    forall n | n in nodes ensures n.name in data' && NodeText(encode, Added(cfgs, i, m), n) == Ok(data'[n.name]) {
      SameNodeOrUntargeted(c, nodes, t, n);
      OverriddenText(encode, cfgs, i, c, profileName, target, n);
    }
    TargetIsListed(nodes, t);
    hide DistinctNames;
    DistinctContents(encode, Added(cfgs, i, m), nodes, data');
  }

  lemma SameNodeOrUntargeted(c: PtpConfig, nodes: seq<Node>, t: nat, n: Node)
    requires Mutable(c) && DistinctNames(nodes) && OnlyTarget(c, nodes, t) && n in nodes
    ensures n.name == nodes[t].name ==> n == nodes[t]
    ensures n.name != nodes[t].name ==> !Targeted(c, nodes[t].name, n)
  {
    hide Targeted;
    var k :| 0 <= k < |nodes| && nodes[k] == n;
  }

  lemma TargetIsTargeted(c: PtpConfig, node: Node)
    requires Mutable(c)
    ensures Targeted(c, node.name, node)
  {
  }

  lemma TargetIsListed(nodes: seq<Node>, t: nat)
    requires t < |nodes|
    ensures Listed(nodes, nodes[t].name)
  {
  }

  /** Where some node has a selection, no profile is nameless. */
  lemma NoNamelessProfile(cfgs: seq<PtpConfig>, node: Node)
    requires Recommended(cfgs, node).Ok?
    ensures !MissingName(AllProfiles(cfgs))
  {
  }

  /** The override is added, and reconcile `w` runs. */
  function Overriding(w: nat, all: seq<PtpConfig>): seq<Action> {
    [EditConfigs(all)] + (Listing(w) + Writing(w))
  }

  /** A change of the PtpConfigs followed by a quiet reconcile that can compute the map. */
  lemma EditedAndReconciled(s: State, w: nat, edited: seq<PtpConfig>, data: NodeData)
    requires |s.history| > 0 && w < |s.reconciles| && s.reconciles[w].Idle? && s.cm.Some?
    requires Assignment(s.encode, edited, s.history[s.Now()].nodes) == Ok(data)
    ensures var r := Run(s, Overriding(w, edited));
            && r.cm.Some? && r.cm.value.data == data && r.encode == s.encode
            && w < |r.reconciles| && r.reconciles[w].Idle?
            && r.history == s.history + [World(edited, s.history[s.Now()].nodes)]
  {
    hide Run, Assignment;
    RunAppend(s, [EditConfigs(edited)], Listing(w) + Writing(w));
    RunOne(s, EditConfigs(edited));
    var s1 := s.(history := s.history + [World(edited, s.history[s.Now()].nodes)]);
    assert After(s, EditConfigs(edited)) == s1;
    assert AssignmentAt(s1, s1.Now(), s1.Now()) == Ok(data);
    hide After, AssignmentAt;
    QuietReconcileConverges(s1, w);
  }

  /**
   From any state with a map: after the override and a quiet reconcile the stored data is the
   map without it but for the target's entry, and after its deletion and another quiet
   reconcile it is what it was to begin with. A config of one profile and one entry brings
   nothing else along.
   */
  lemma OverrideRoundTrip(s: State, w: nat, i: nat, c: PtpConfig, profileName: string, t: nat,
                          data: NodeData, rest: NodeData)
    requires |s.history| > 0 && w < |s.reconciles| && s.reconciles[w].Idle? && s.cm.Some?
    requires var cfgs, nodes := s.history[s.Now()].configs, s.history[s.Now()].nodes;
             && i <= |cfgs| && Mutable(c) && DistinctNames(nodes) && OnlyTarget(c, nodes, t)
             && (forall d :: d in cfgs ==> !IsTempPolicy(d))
             && Assignment(s.encode, cfgs, nodes) == Ok(data)
    requires var cfgs, nodes := s.history[s.Now()].configs, s.history[s.Now()].nodes;
             var m := Mutated(c, profileName, nodes[t].name);
             && Fresh(profileName, WithRemainder(cfgs, i, m))
             && OutrankedByZero(AllRecommends(WithRemainder(cfgs, i, m)), nodes[t])
             && Assignment(s.encode, WithRemainder(cfgs, i, m), nodes) == Ok(rest)
             && s.encode([m.profiles[0]]).Some?
    ensures var cfgs, nodes := s.history[s.Now()].configs, s.history[s.Now()].nodes;
            var m := Mutated(c, profileName, nodes[t].name);
            var all := Added(cfgs, i, m);
            var s1 := Run(s, Overriding(w, all));
            var s2 := Run(s1, Overriding(w, TempPolicyDeleted(all)));
            && s1.cm.Some? && s1.cm.value.data == rest[nodes[t].name := s.encode([m.profiles[0]]).value]
            && s2.cm.Some? && s2.cm.value.data == data
    ensures |c.profiles| == |c.recommends| == 1 ==> rest == data
  {
    assert t < |s.history[s.Now()].nodes|;
    hide Run, Assignment, AllRecommends, AllProfiles, OutrankedByZero, TempPolicyDeleted, OnlyTarget, DistinctNames,
      WithRemainder, Fresh;
    var cfgs, nodes := s.history[s.Now()].configs, s.history[s.Now()].nodes;
    var m := Mutated(c, profileName, nodes[t].name);
    if |c.profiles| == |c.recommends| == 1 {
      SameSelection(s.encode, cfgs, i, m, nodes);
    }
    OverrideOnMap(s.encode, cfgs, i, c, profileName, nodes, t, rest);
    OverrideIsReverted(cfgs, i, c, profileName, nodes[t].name);
    hide Added, Mutated;
    EditedAndReconciled(s, w, Added(cfgs, i, m), rest[nodes[t].name := s.encode([m.profiles[0]]).value]);
    EditedAndReconciled(Run(s, Overriding(w, Added(cfgs, i, m))), w, cfgs, data);
  }

  /** Lists with the same entries and profiles in the same order give the same map. */
  lemma SameSelection(encode: Encoder, cfgs: seq<PtpConfig>, i: nat, m: PtpConfig, nodes: seq<Node>)
    requires i <= |cfgs| && |m.profiles| == |m.recommends| == 1
    ensures AllRecommends(WithRemainder(cfgs, i, m)) == AllRecommends(cfgs)
    ensures AllProfiles(WithRemainder(cfgs, i, m)) == AllProfiles(cfgs)
    ensures Assignment(encode, WithRemainder(cfgs, i, m), nodes) == Assignment(encode, cfgs, nodes)
  {
    NothingRemains(cfgs, i, m);
    SameEntriesSameMap(encode, WithRemainder(cfgs, i, m), cfgs, nodes);
  }

  lemma {:induction false} SameEntriesSameMap(encode: Encoder, cfgs: seq<PtpConfig>, cfgs': seq<PtpConfig>,
                                              nodes: seq<Node>)
    requires AllRecommends(cfgs) == AllRecommends(cfgs') && AllProfiles(cfgs) == AllProfiles(cfgs')
    ensures Assignment(encode, cfgs, nodes) == Assignment(encode, cfgs', nodes)
  {
    hide AllRecommends, AllProfiles, Selected;
    if nodes != [] {
      SameEntriesSameMap(encode, cfgs, cfgs', nodes[..|nodes| - 1]);
    }
  }
}

/** The temporary override of one node's configuration: `MutateProfile` seen from the selection. */
module Preemption {
  import opened Prelude
  import opened PtpTypes
  import opened Sorting
  import opened Recommendation

  const TEMP_POLICY_NAME := "temp"
  const DAEMON_NAMESPACE := "openshift-ptp"

  /** The shape `MutateProfile` dereferences without checking. */
  predicate Mutable(c: PtpConfig) {
    |c.profiles| > 0 && |c.recommends| > 0 && |c.recommends[0].rules| > 0
  }

  /** The value `MutateProfile` returns. */
  function Mutated(c: PtpConfig, profileName: string, nodeName: string): PtpConfig
    requires Mutable(c)
  {
    var r := c.recommends[0];
    PtpConfig(
      DAEMON_NAMESPACE,
      TEMP_POLICY_NAME,
      c.profiles[0 := c.profiles[0].(name := Some(profileName))],
      c.recommends[0 := PtpRecommend(Some(profileName), Some(0),
                                     r.rules[0 := MatchRule(None, Some(nodeName))])])
  }

  /** What `MutateProfile` changes, and that it changes nothing else. */
  lemma MutationMeans(c: PtpConfig, profileName: string, nodeName: string)
    requires Mutable(c)
    ensures var m := Mutated(c, profileName, nodeName);
            && m.namespace == "openshift-ptp" && m.name == "temp"
            && |m.profiles| == |c.profiles| && m.profiles[1..] == c.profiles[1..]
            && m.profiles[0].name == Some(profileName) && m.profiles[0].(name := c.profiles[0].name) == c.profiles[0]
            && |m.recommends| == |c.recommends| && m.recommends[1..] == c.recommends[1..]
            && m.recommends[0].profile == Some(profileName) && m.recommends[0].priority == Some(0)
            && |m.recommends[0].rules| == |c.recommends[0].rules|
            && m.recommends[0].rules[1..] == c.recommends[0].rules[1..]
            && m.recommends[0].rules[0].nodeName == Some(nodeName) && m.recommends[0].rules[0].nodeLabel.None?
  {
  }

  /** Where `MutateProfile` does not panic, and which PtpConfig it makes room for. */
  lemma MutableIff(c: PtpConfig)
    ensures Mutable(c) <==> c.profiles != [] && c.recommends != [] && c.recommends[0].rules != []
    ensures IsTempPolicy(c) <==> c.namespace == "openshift-ptp" && c.name == "temp"
  {
  }

  ghost predicate Fresh(profileName: string, cfgs: seq<PtpConfig>) {
    && (forall p :: p in AllProfiles(cfgs) ==> p.name != Some(profileName))
    && (forall r :: r in AllRecommends(cfgs) ==> r.profile != Some(profileName))
  }

  /** Every entry that competes for the node asks for a priority behind 0. */
  ghost predicate OutrankedByZero(rs: seq<PtpRecommend>, node: Node) {
    forall r :: r in rs && Eligible(r, node) ==> r.priority.Some? && r.priority.value > 0
  }

  function Added(cfgs: seq<PtpConfig>, i: nat, m: PtpConfig): seq<PtpConfig>
    requires i <= |cfgs|
  {
    cfgs[..i] + [m] + cfgs[i..]
  }

  /** What `m` brings along besides the overriding profile and its entry. */
  function Remainder(m: PtpConfig): PtpConfig
    requires m.profiles != [] && m.recommends != []
  {
    m.(profiles := m.profiles[1..], recommends := m.recommends[1..])
  }

  /** The list that the override is compared with. */
  function WithRemainder(cfgs: seq<PtpConfig>, i: nat, m: PtpConfig): seq<PtpConfig>
    requires i <= |cfgs| && m.profiles != [] && m.recommends != []
  {
    Added(cfgs, i, Remainder(m))
  }

  /** The node is the one that is named, or matches a rule of the entry that `MutateProfile` leaves as it is. */
  ghost predicate Targeted(c: PtpConfig, nodeName: string, node: Node)
    requires Mutable(c)
  {
    node.name == nodeName || NodeMatches(node, c.recommends[0].rules[1..])
  }

  predicate IsTempPolicy(c: PtpConfig) {
    c.namespace == DAEMON_NAMESPACE && c.name == TEMP_POLICY_NAME
  }

  /** The list after the deletion of the temporary policy. */
  function TempPolicyDeleted(cfgs: seq<PtpConfig>): seq<PtpConfig> {
    if cfgs == [] then []
    else (if IsTempPolicy(cfgs[0]) then [] else [cfgs[0]]) + TempPolicyDeleted(cfgs[1..])
  }

  lemma FlatMapAdded<B>(f: PtpConfig -> seq<B>, cfgs: seq<PtpConfig>, i: nat, m: PtpConfig)
    requires i <= |cfgs|
    ensures FlatMap(f, Added(cfgs, i, m)) == FlatMap(f, cfgs[..i]) + f(m) + FlatMap(f, cfgs[i..])
  {
    FlatMapAppend(f, cfgs[..i] + [m], cfgs[i..]);
    FlatMapAppend(f, cfgs[..i], [m]);
    FlatMapOne(f, m);
  }

  lemma {:induction false} NothingFound(ps: seq<Profile>, names: set<string>)
    requires forall p :: p in ps && p.name.Some? ==> p.name.value !in names
    ensures Found(ps, names) == []
  {
    if ps != [] {
      NothingFound(ps[1..], names);
    }
  }

  /** The override does not compete for a node it does not match. */
  lemma ChosenWithoutOverride(rs: seq<PtpRecommend>, others: seq<PtpRecommend>, m: PtpRecommend, node: Node)
    requires forall r :: r in rs <==> r == m || r in others
    requires !Eligible(m, node)
    ensures ChosenNames(rs, node) == ChosenNames(others, node)
    ensures MissingPriority(rs, node) <==> MissingPriority(others, node)
  {
  }

  /** On a node it matches, the override is the only choice iff every competitor is behind priority 0. */
  lemma ChosenWithOverride(rs: seq<PtpRecommend>, others: seq<PtpRecommend>, m: PtpRecommend, node: Node, n: string)
    requires Eligible(m, node) && m.profile == Some(n) && m.priority == Some(0)
    requires forall r :: r in rs <==> r == m || r in others
    requires forall r :: r in others ==> r.profile != Some(n)
    requires !MissingPriority(rs, node)
    ensures ChosenNames(rs, node) == {n} <==> OutrankedByZero(others, node)
  {
    if OutrankedByZero(others, node) {
      assert Best(m, rs, node);
      assert forall r :: r in rs && Best(r, rs, node) ==> r == m;
      assert n in ChosenNames(rs, node);
    } else {
      var r :| r in others && Eligible(r, node) && !(r.priority.Some? && r.priority.value > 0);
      var b := LeastEligible(rs, node, r);
      assert b.profile.value in ChosenNames(rs, node);
      assert b == m ==> Best(r, rs, node) && r.profile.value in ChosenNames(rs, node);
    }
  }

  /** Among finitely many eligible entries one has the least priority. */
  lemma {:induction false} LeastEligible(rs: seq<PtpRecommend>, node: Node, r: PtpRecommend) returns (b: PtpRecommend)
    requires r in rs && Eligible(r, node) && !MissingPriority(rs, node)
    ensures b in rs && Best(b, rs, node)
  {
    b := r;
    for i := 0 to |rs|
      invariant b in rs && Eligible(b, node) && b.priority.Some?
      invariant forall k :: 0 <= k < i && Eligible(rs[k], node) ==>
          rs[k].priority.Some? && b.priority.value <= rs[k].priority.value
    {
      if Eligible(rs[i], node) && rs[i].priority.value < b.priority.value {
        b := rs[i];
      }
    }
  }

  lemma FoundBetween(before: seq<Profile>, p: Profile, after: seq<Profile>, names: set<string>)
    requires p.name.Some?
    ensures Found(before + [p] + after, names)
            == Found(before, names) + (if p.name.value in names then [p] else []) + Found(after, names)
    ensures Found(before + after, names) == Found(before, names) + Found(after, names)
  {
    hide Found;
    FoundAppend(before + [p], after, names);
    FoundAppend(before, [p], names);
    FoundAppend(before, after, names);
    FoundOne(p, names);
  }

  lemma OverrideEntryTargets(c: PtpConfig, profileName: string, nodeName: string, node: Node)
    requires Mutable(c)
    ensures Eligible(Mutated(c, profileName, nodeName).recommends[0], node) <==> Targeted(c, nodeName, node)
  {
    var rules := Mutated(c, profileName, nodeName).recommends[0].rules;
    var rest := c.recommends[0].rules[1..];
    assert RuleMatches(node, rules[0]) <==> node.name == nodeName;
    assert rules[1..] == rest;
    if NodeMatches(node, rest) {
      var k :| 0 <= k < |rest| && RuleMatches(node, rest[k]);
      assert RuleMatches(node, rules[k + 1]);
    }
    if k :| 1 <= k < |rules| && RuleMatches(node, rules[k]) {
      assert RuleMatches(node, rest[k - 1]);
    }
  }

  /** Adding `m` puts its first entry and its first profile into what is compared with. */
  lemma OverrideEntries<B>(f: PtpConfig -> seq<B>, cfgs: seq<PtpConfig>, i: nat, m: PtpConfig, rest: PtpConfig, x: B)
    returns (before: seq<B>, after: seq<B>)
    requires i <= |cfgs| && f(m) == [x] + f(rest)
    ensures FlatMap(f, Added(cfgs, i, m)) == before + [x] + after
    ensures FlatMap(f, Added(cfgs, i, rest)) == before + after
  {
    before, after := FlatMap(f, cfgs[..i]), f(rest) + FlatMap(f, cfgs[i..]);
    FlatMapAdded(f, cfgs, i, m);
    FlatMapAdded(f, cfgs, i, rest);
  }

  /** The override leaves alone the result of every node it does not target. */
  lemma OverrideSparesOtherNodes(cfgs: seq<PtpConfig>, i: nat, c: PtpConfig, profileName: string, nodeName: string,
                                 node: Node)
    requires i <= |cfgs| && Mutable(c) && !Targeted(c, nodeName, node)
    requires Fresh(profileName, WithRemainder(cfgs, i, Mutated(c, profileName, nodeName)))
    ensures var m := Mutated(c, profileName, nodeName);
            Recommended(Added(cfgs, i, m), node) == Recommended(WithRemainder(cfgs, i, m), node)
  {
    var m := Mutated(c, profileName, nodeName);
    var rest, e, p := Remainder(m), m.recommends[0], m.profiles[0];
    assert m.recommends == [e] + rest.recommends && m.profiles == [p] + rest.profiles;
    OverrideEntryTargets(c, profileName, nodeName, node);
    var rsBefore, rsAfter := OverrideEntries(RecommendsOf, cfgs, i, m, rest, e);
    var psBefore, psAfter := OverrideEntries(ProfilesOf, cfgs, i, m, rest, p);
    UnmatchedIsInvisible(rsBefore, e, rsAfter, psBefore, p, psAfter, node);
  }

  lemma UnmatchedIsInvisible(rsBefore: seq<PtpRecommend>, e: PtpRecommend, rsAfter: seq<PtpRecommend>,
                             psBefore: seq<Profile>, p: Profile, psAfter: seq<Profile>, node: Node)
    requires !Eligible(e, node) && p.name.Some?
    requires forall r :: r in rsBefore + rsAfter ==> r.profile != p.name
    ensures Selected(rsBefore + [e] + rsAfter, psBefore + [p] + psAfter, node)
            == Selected(rsBefore + rsAfter, psBefore + psAfter, node)
  {
    ChosenWithoutOverride(rsBefore + [e] + rsAfter, rsBefore + rsAfter, e, node);
    var names := ChosenNames(rsBefore + rsAfter, node);
    assert p.name.value !in names by {
      assert forall r :: Best(r, rsBefore + rsAfter, node) ==> r.profile == Some(r.profile.value);
    }
    FoundBetween(psBefore, p, psAfter, names);
    assert Found(psBefore, names) + [] == Found(psBefore, names);
    var ps, ps' := psBefore + psAfter, psBefore + [p] + psAfter;
    assert forall q :: q in ps' <==> q in ps || q == p;
    assert MissingName(ps') <==> MissingName(ps);
  }

  /**
   A targeted node gets exactly the mutated profile iff all other entries that match it have
   a priority behind 0 and no profile in the list is nameless.
   */
  lemma OverrideTakesTarget(cfgs: seq<PtpConfig>, i: nat, c: PtpConfig, profileName: string, nodeName: string,
                            node: Node)
    requires i <= |cfgs| && Mutable(c) && Targeted(c, nodeName, node)
    requires Fresh(profileName, WithRemainder(cfgs, i, Mutated(c, profileName, nodeName)))
    ensures var m := Mutated(c, profileName, nodeName);
            var others := WithRemainder(cfgs, i, m);
            Recommended(Added(cfgs, i, m), node) == Ok([m.profiles[0]])
            <==> OutrankedByZero(AllRecommends(others), node) && !MissingName(AllProfiles(others))
  {
    var m := Mutated(c, profileName, nodeName);
    var rest, e, p := Remainder(m), m.recommends[0], m.profiles[0];
    assert m.recommends == [e] + rest.recommends && m.profiles == [p] + rest.profiles;
    OverrideEntryTargets(c, profileName, nodeName, node);
    var rsBefore, rsAfter := OverrideEntries(RecommendsOf, cfgs, i, m, rest, e);
    var psBefore, psAfter := OverrideEntries(ProfilesOf, cfgs, i, m, rest, p);
    MatchedTakesAll(rsBefore, e, rsAfter, psBefore, p, psAfter, node, profileName);
  }

  /** A config with one profile and one entry brings nothing else along. */
  lemma NothingRemains(cfgs: seq<PtpConfig>, i: nat, m: PtpConfig)
    requires i <= |cfgs| && |m.profiles| == |m.recommends| == 1
    ensures AllRecommends(WithRemainder(cfgs, i, m)) == AllRecommends(cfgs)
    ensures AllProfiles(WithRemainder(cfgs, i, m)) == AllProfiles(cfgs)
  {
    var rest := Remainder(m);
    FlatMapAdded(RecommendsOf, cfgs, i, rest);
    FlatMapAdded(ProfilesOf, cfgs, i, rest);
    FlatMapAppend(RecommendsOf, cfgs[..i], cfgs[i..]);
    FlatMapAppend(ProfilesOf, cfgs[..i], cfgs[i..]);
    assert cfgs == cfgs[..i] + cfgs[i..];
    assert FlatMap(RecommendsOf, cfgs[..i]) + [] == FlatMap(RecommendsOf, cfgs[..i]);
    assert FlatMap(ProfilesOf, cfgs[..i]) + [] == FlatMap(ProfilesOf, cfgs[..i]);
  }

  lemma MatchedTakesAll(rsBefore: seq<PtpRecommend>, e: PtpRecommend, rsAfter: seq<PtpRecommend>,
                        psBefore: seq<Profile>, p: Profile, psAfter: seq<Profile>, node: Node, n: string)
    requires Eligible(e, node) && e.profile == p.name == Some(n) && e.priority == Some(0)
    requires forall r :: r in rsBefore + rsAfter ==> r.profile != Some(n)
    requires forall q :: q in psBefore + psAfter ==> q.name != Some(n)
    ensures Selected(rsBefore + [e] + rsAfter, psBefore + [p] + psAfter, node) == Ok([p])
            <==> OutrankedByZero(rsBefore + rsAfter, node) && !MissingName(psBefore + psAfter)
  {
    hide Found, StableSort;
    var rs, others := rsBefore + [e] + rsAfter, rsBefore + rsAfter;
    var ps, qs := psBefore + [p] + psAfter, psBefore + psAfter;
    assert forall r :: r in rs <==> r == e || r in others;
    assert MissingName(ps) <==> MissingName(qs) by {
      assert forall q :: q in ps <==> q == p || q in qs;
    }
    if MissingPriority(rs, node) {
      assert !OutrankedByZero(others, node);
    } else {
      ChosenWithOverride(rs, others, e, node, n);
      var names := ChosenNames(rs, node);
      if names == {n} {
        assert Found(ps, names) == [p] by {
          FoundBetween(psBefore, p, psAfter, names);
          assert forall q :: q in psBefore || q in psAfter ==> q in qs;
          NothingFound(psBefore, names);
          NothingFound(psAfter, names);
        }
        SortOne(p);
      } else {
        OneFoundOneName(ps, names, p, n);
      }
    }
  }

  lemma SortOne(p: Profile)
    ensures StableSort(NameLess, [p]) == [p]
  {
  }

  /** If the lookup returns just `p`, the only name looked up was `p`'s. */
  lemma OneFoundOneName(ps: seq<Profile>, names: set<string>, p: Profile, n: string)
    requires p.name == Some(n)
    ensures |Found(ps, names)| == |names| && StableSort(NameLess, Found(ps, names)) == [p] ==> names == {n}
  {
    var found := Found(ps, names);
    if |found| == |names| && StableSort(NameLess, found) == [p] {
      NameLessIsOrder();
      StableSortIsStable(NameLess, found);
      SameMembers([p], found);
      FoundIsNamed(ps, names);
      assert p in [p];
      assert |names - {n}| == 0;
    }
  }

  lemma {:induction false} FoundIsNamed(ps: seq<Profile>, names: set<string>)
    ensures forall p :: p in Found(ps, names) ==> p.name.Some? && p.name.value in names
  {
    if ps != [] {
      FoundIsNamed(ps[1..], names);
    }
  }

  lemma {:induction false} DeletedSplits(cfgs: seq<PtpConfig>, cfgs': seq<PtpConfig>)
    ensures TempPolicyDeleted(cfgs + cfgs') == TempPolicyDeleted(cfgs) + TempPolicyDeleted(cfgs')
  {
    if cfgs == [] {
      assert cfgs + cfgs' == cfgs';
    } else {
      assert (cfgs + cfgs')[1..] == cfgs[1..] + cfgs';
      DeletedSplits(cfgs[1..], cfgs');
    }
  }

  lemma {:induction false} DeletedNothing(cfgs: seq<PtpConfig>)
    requires forall c :: c in cfgs ==> !IsTempPolicy(c)
    ensures TempPolicyDeleted(cfgs) == cfgs
  {
    if cfgs != [] {
      DeletedNothing(cfgs[1..]);
    }
  }

  lemma DeletedOverride(c: PtpConfig, profileName: string, nodeName: string)
    requires Mutable(c)
    ensures TempPolicyDeleted([Mutated(c, profileName, nodeName)]) == []
  {
    hide Mutable;
    assert TempPolicyDeleted([Mutated(c, profileName, nodeName)][1..]) == [];
  }

  lemma DeletedInParts(cfgs: seq<PtpConfig>, i: nat)
    requires i <= |cfgs| && forall d :: d in cfgs ==> !IsTempPolicy(d)
    ensures TempPolicyDeleted(cfgs[..i]) == cfgs[..i] && TempPolicyDeleted(cfgs[i..]) == cfgs[i..]
  {
    hide TempPolicyDeleted, IsTempPolicy;
    assert forall d :: d in cfgs[..i] || d in cfgs[i..] ==> d in cfgs;
    DeletedNothing(cfgs[..i]);
    DeletedNothing(cfgs[i..]);
  }

  /** Deleting the temporary policy leaves the list as it was before the override. */
  lemma OverrideIsReverted(cfgs: seq<PtpConfig>, i: nat, c: PtpConfig, profileName: string, nodeName: string)
    requires i <= |cfgs| && Mutable(c)
    requires forall d :: d in cfgs ==> !IsTempPolicy(d)
    ensures TempPolicyDeleted(Added(cfgs, i, Mutated(c, profileName, nodeName))) == cfgs
  {
    hide TempPolicyDeleted, IsTempPolicy, Mutated, Mutable;
    DeletedOverride(c, profileName, nodeName);
    DeletedInParts(cfgs, i);
    DeletedBetween(cfgs[..i], Mutated(c, profileName, nodeName), cfgs[i..]);
    assert cfgs[..i] + cfgs[i..] == cfgs;
  }

  lemma DeletedBetween(before: seq<PtpConfig>, m: PtpConfig, after: seq<PtpConfig>)
    requires TempPolicyDeleted(before) == before && TempPolicyDeleted(after) == after && TempPolicyDeleted([m]) == []
    ensures TempPolicyDeleted(before + [m] + after) == before + after
  {
    hide TempPolicyDeleted;
    DeletedSplits(before + [m], after);
    DeletedSplits(before, [m]);
    assert before + [] == before;
  }
}

/** What the selection for a node means, spelled out on the PtpConfigs. */
module SelectionMeaning {
  import opened Prelude
  import opened PtpTypes
  import opened Sorting
  import opened Recommendation
  import opened RecommendationLaws
  import Text

  /** Some PtpConfig recommends a profile for the node by its name or by the key of one of its labels. */
  ghost predicate Offers(cfgs: seq<PtpConfig>, node: Node, r: PtpRecommend) {
    && (exists c :: c in cfgs && r in c.recommends)
    && r.profile.Some?
    && exists i :: 0 <= i < |r.rules| && Names(r.rules[i], node)
  }

  /** The profile name is offered at a priority that no other offer undercuts. */
  ghost predicate Wins(cfgs: seq<PtpConfig>, node: Node, n: string) {
    exists r :: Offers(cfgs, node, r) && r.profile == Some(n) && r.priority.Some?
                && forall q :: Offers(cfgs, node, q) && q.priority.Some? ==> r.priority.value <= q.priority.value
  }

  ghost predicate Defines(cfgs: seq<PtpConfig>, p: Profile) {
    exists c :: c in cfgs && p in c.profiles
  }

  lemma OffersAreEligible(cfgs: seq<PtpConfig>, node: Node, r: PtpRecommend)
    ensures Offers(cfgs, node, r) <==> r in AllRecommends(cfgs) && Eligible(r, node)
  {
    FlatMapMember(RecommendsOf, cfgs, r);
    MatchesByNameOrKey(node, r.rules);
  }

  lemma WinnersAreChosen(cfgs: seq<PtpConfig>, node: Node)
    ensures forall n :: n in ChosenNames(AllRecommends(cfgs), node) <==> Wins(cfgs, node, n)
    ensures MissingPriority(AllRecommends(cfgs), node) <==> exists r :: Offers(cfgs, node, r) && r.priority.None?
  {
    forall r ensures Offers(cfgs, node, r) <==> r in AllRecommends(cfgs) && Eligible(r, node) {
      OffersAreEligible(cfgs, node, r);
    }
    hide Offers, Eligible, AllRecommends;
  }

  lemma ProfilesAreDefined(cfgs: seq<PtpConfig>, p: Profile)
    ensures p in AllProfiles(cfgs) <==> Defines(cfgs, p)
  {
    FlatMapMember(ProfilesOf, cfgs, p);
  }

  /**
   The selection panics iff an offer lacks its priority or a profile its name. Otherwise it
   fails iff the winning names and the profiles that carry them differ in number. If it
   succeeds it consists of just the profiles that carry a winning name, by increasing name.
   */
  lemma SelectionOfConfigs(cfgs: seq<PtpConfig>, node: Node, winners: set<string>)
    requires forall n :: n in winners <==> Wins(cfgs, node, n)
    ensures Recommended(cfgs, node).Panic? <==>
              || (exists r :: Offers(cfgs, node, r) && r.priority.None?)
              || (exists p :: Defines(cfgs, p) && p.name.None?)
    ensures Recommended(cfgs, node).Err? <==>
              !Recommended(cfgs, node).Panic? && TotalMultiplicity(AllProfiles(cfgs), winners) != |winners|
    ensures Recommended(cfgs, node).Ok? ==>
              var ps := Recommended(cfgs, node).value;
              && (forall p :: p in ps <==> Defines(cfgs, p) && p.name.Some? && p.name.value in winners)
              && (forall i, j, d: nat :: 0 <= i < j < |ps| ==>
                    !Text.SmallerAt(ps[j].name.value, ps[i].name.value, d))
  {
    var rs, all := AllRecommends(cfgs), AllProfiles(cfgs);
    WinnersAreChosen(cfgs, node);
    assert winners == ChosenNames(rs, node);
    forall p ensures p in all <==> Defines(cfgs, p) {
      ProfilesAreDefined(cfgs, p);
    }
    hide Offers, Wins, Defines, ChosenNames, AllRecommends, AllProfiles, MissingPriority;
    LengthIsTotalMultiplicity(all, winners);
    if Recommended(cfgs, node).Ok? {
      SortedByName(all, winners);
    }
  }

  lemma SortedByName(all: seq<Profile>, winners: set<string>)
    ensures var ps := StableSort(NameLess, Found(all, winners));
            && (forall p :: p in ps <==> p in all && p.name.Some? && p.name.value in winners)
            && (forall i, j, d: nat :: 0 <= i < j < |ps| ==>
                  !Text.SmallerAt(ps[j].name.value, ps[i].name.value, d))
  {
    var found := Found(all, winners);
    var ps := StableSort(NameLess, found);
    FoundMembers(all, winners);
    NameLessIsOrder();
    StableSortIsStable(NameLess, found);
    SameMembers(ps, found);
    hide Found, StableSort, Text.SmallerAt;
    forall i, j, d: nat | 0 <= i < j < |ps| ensures !Text.SmallerAt(ps[j].name.value, ps[i].name.value, d) {
      assert ps[i] in ps && ps[j] in ps;
      Text.LessIsFirstDifference(ps[j].name.value, ps[i].name.value);
    }
  }

  /** One entry with one rule on a label: a node gets the profile iff it has a label with that key. */
  lemma LabelKeySelects(node: Node, c: PtpConfig, k: string, n: string, priority: Int64, p: Profile)
    requires c.recommends == [PtpRecommend(Some(n), Some(priority), [MatchRule(Some(k), None)])]
    requires c.profiles == [p] && p.name == Some(n)
    ensures Recommended([c], node) == Ok(if k in node.labels.Keys then [p] else [])
  {
    var r := c.recommends[0];
    FlatMapOne(RecommendsOf, c);
    FlatMapOne(ProfilesOf, c);
    OneLabelMatches(node, k);
    hide NodeMatches;
    assert Eligible(r, node) <==> k in node.labels.Keys;
    var names := ChosenNames([r], node);
    FoundOne(p, names);
    if Eligible(r, node) {
      assert Best(r, [r], node);
      assert names == {n};
    } else {
      assert names == {};
    }
    OneIsSorted(p);
  }

  lemma OneLabelMatches(node: Node, k: string)
    ensures NodeMatches(node, [MatchRule(Some(k), None)]) <==> k in node.labels.Keys
  {
    var rules := [MatchRule(Some(k), None)];
    MatchesByNameOrKey(node, rules);
    assert rules[0].nodeLabel == Some(k) && (Names(rules[0], node) <==> k in node.labels.Keys);
  }

  lemma OneIsSorted(p: Profile)
    ensures StableSort(NameLess, []) == [] && StableSort(NameLess, [p]) == [p]
  {
    assert [p][..0] == [];
  }
}

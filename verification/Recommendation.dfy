/** Profile selection for one node: `controllers/recommend.go`. */
module Recommendation {
  import opened Prelude
  import opened PtpTypes
  import opened Sorting
  import Text

  // ----- what is selected, independently of the sort and the scan -----

  predicate RuleMatches(node: Node, m: MatchRule) {
    m.nodeName == Some(node.name) || (m.nodeLabel.Some? && m.nodeLabel.value in node.labels)
  }

  ghost predicate NodeMatches(node: Node, rules: seq<MatchRule>) {
    exists i :: 0 <= i < |rules| && RuleMatches(node, rules[i])
  }

  /** The entry has a profile, a non-empty match list, and matches the node. */
  ghost predicate Eligible(r: PtpRecommend, node: Node) {
    r.profile.Some? && r.rules != [] && NodeMatches(node, r.rules)
  }

  function RecommendsOf(c: PtpConfig): seq<PtpRecommend> { c.recommends }

  function ProfilesOf(c: PtpConfig): seq<Profile> { c.profiles }

  function AllRecommends(cfgs: seq<PtpConfig>): seq<PtpRecommend> {
    FlatMap(RecommendsOf, cfgs)
  }

  function AllProfiles(cfgs: seq<PtpConfig>): seq<Profile> {
    FlatMap(ProfilesOf, cfgs)
  }

  /** Some entry the scan must compare has no priority to compare. */
  ghost predicate MissingPriority(rs: seq<PtpRecommend>, node: Node) {
    exists r :: r in rs && Eligible(r, node) && r.priority.None?
  }

  /** An eligible entry whose priority no eligible entry undercuts. */
  ghost predicate Best(r: PtpRecommend, rs: seq<PtpRecommend>, node: Node) {
    && Eligible(r, node) && r.priority.Some?
    && forall q :: q in rs && Eligible(q, node) && q.priority.Some? ==> r.priority.value <= q.priority.value
  }

  /** The profiles of the eligible entries of smallest priority. */
  ghost function ChosenNames(rs: seq<PtpRecommend>, node: Node): set<string> {
    set r | r in rs && Best(r, rs, node) :: r.profile.value
  }

  ghost predicate MissingName(ps: seq<Profile>) {
    exists p :: p in ps && p.name.None?
  }

  /** The profiles whose name is wanted, in list order. */
  function Found(ps: seq<Profile>, names: set<string>): seq<Profile> {
    if ps == [] then []
    else (if ps[0].name.Some? && ps[0].name.value in names then [ps[0]] else []) + Found(ps[1..], names)
  }

  function NameOf(p: Profile): string {
    if p.name.Some? then p.name.value else ""
  }

  predicate NameLess(p: Profile, q: Profile) {
    Text.Less(NameOf(p), NameOf(q))
  }

  /** The outcome of the selection for a node, given all entries and all profiles. */
  ghost function Selected(rs: seq<PtpRecommend>, ps: seq<Profile>, node: Node): Outcome<seq<Profile>> {
    if MissingPriority(rs, node) || MissingName(ps) then Panic
    else
      var names := ChosenNames(rs, node);
      var found := Found(ps, names);
      if |found| != |names| then Err else Ok(StableSort(NameLess, found))
  }

  /** What `getRecommendProfiles` computes for a node. */
  ghost function Recommended(cfgs: seq<PtpConfig>, node: Node): Outcome<seq<Profile>> {
    Selected(AllRecommends(cfgs), AllProfiles(cfgs), node)
  }

  /** The rule names the node, or the key of one of its labels. */
  ghost predicate Names(m: MatchRule, node: Node) {
    m.nodeName == Some(node.name) || exists k :: k in node.labels.Keys && m.nodeLabel == Some(k)
  }

  lemma MatchesByNameOrKey(node: Node, rules: seq<MatchRule>)
    ensures NodeMatches(node, rules) <==> exists i :: 0 <= i < |rules| && Names(rules[i], node)
  {
    forall i | 0 <= i < |rules| ensures RuleMatches(node, rules[i]) <==> Names(rules[i], node) {}
  }

  // ----- the comparators -----

  /** The comparator of the priority sort. */
  predicate PriorityLess(a: PtpRecommend, b: PtpRecommend) {
    if a.priority.Some? && b.priority.Some? then a.priority.value < b.priority.value
    else a.priority.Some?
  }

  /** It is a strict weak order in which the entries without priority tie at the end. */
  lemma PriorityLessIsOrder()
    ensures StrictWeakOrder(PriorityLess)
    ensures forall a: PtpRecommend, b: PtpRecommend :: a.priority.Some? && b.priority.None? ==> PriorityLess(a, b)
    ensures forall a: PtpRecommend, b: PtpRecommend :: a.priority.None? && b.priority.None? ==> !PriorityLess(a, b)
  {
  }

  lemma NameLessIsOrder()
    ensures StrictWeakOrder(NameLess)
  {
    forall a, b, c: Profile
      ensures !NameLess(a, a)
      ensures NameLess(a, b) && NameLess(b, c) ==> NameLess(a, c)
      ensures !NameLess(a, b) && !NameLess(b, c) ==> !NameLess(a, c)
    {
      var x, y, z := NameOf(a), NameOf(b), NameOf(c);
      Text.LessIsTotal(x, x);
      Text.LessIsTotal(x, y);
      Text.LessIsTotal(y, z);
      if Text.Less(x, y) && Text.Less(y, z) {
        Text.LessIsTransitive(x, y, z);
      }
      if !Text.Less(x, y) && !Text.Less(y, z) && Text.Less(x, z) {
        if Text.Less(y, x) {
          Text.LessIsTransitive(y, x, z);
        }
      }
    }
  }

  // ----- the code -----

  /** `nodeMatches`; the label map is enumerated in no particular order. */
  method MatchNode(node: Node, rules: seq<MatchRule>) returns (b: bool)
    ensures b <==> NodeMatches(node, rules)
    ensures b <==> exists i :: 0 <= i < |rules| && Names(rules[i], node)
  {
    MatchesByNameOrKey(node, rules);
    for i := 0 to |rules|
      invariant forall k :: 0 <= k < i ==> !RuleMatches(node, rules[k])
    {
      var m := rules[i];
      if m.nodeName.Some? && m.nodeName.value == node.name {
        return true;
      }
      var labels := node.labels.Keys;
      while labels != {}
        invariant labels <= node.labels.Keys
        invariant m.nodeLabel.Some? && m.nodeLabel.value in node.labels ==> m.nodeLabel.value in labels
        decreases labels
      {
        var k :| k in labels;
        labels := labels - {k};
        if m.nodeLabel.Some? && m.nodeLabel.value == k {
          assert RuleMatches(node, rules[i]);
          return true;
        }
      }
    }
    return false;
  }

  /** Some eligible entry of that priority carries the name. */
  ghost predicate Collected(rs: seq<PtpRecommend>, node: Node, n: string, priority: Int64) {
    exists r :: r in rs && Eligible(r, node) && r.priority == Some(priority) && r.profile == Some(n)
  }

  /** If `priority` is the least eligible one, the collected names are the chosen ones. */
  lemma ScanIsChoice(rs: seq<PtpRecommend>, node: Node, names: set<string>, found: bool, priority: Int64)
    requires Scanned(rs, |rs|, node, names, found, priority)
    ensures names == ChosenNames(rs, node) && !MissingPriority(rs, node)
  {
  }

  /** What the scan knows after `i` of the sorted entries. */
  ghost predicate Scanned(rs: seq<PtpRecommend>, i: nat, node: Node, names: set<string>, found: bool, priority: Int64)
    requires i <= |rs|
  {
    && (forall k :: 0 <= k < i && Eligible(rs[k], node) ==> found && rs[k].priority.Some?)
    && (!found ==> names == {})
    && (found ==> exists k :: 0 <= k < i && Eligible(rs[k], node) && rs[k].priority == Some(priority))
    && (found ==> forall k :: 0 <= k < |rs| && Eligible(rs[k], node) && rs[k].priority.Some? ==>
       priority <= rs[k].priority.value)
    && (found ==> forall n :: n in names <==> Collected(rs[..i], node, n, priority))
  }

  /** The scan passes over an entry that is not eligible. */
  lemma ScanPassesOver(rs: seq<PtpRecommend>, i: nat, node: Node, names: set<string>, found: bool, priority: Int64)
    requires i < |rs| && Scanned(rs, i, node, names, found, priority) && !Eligible(rs[i], node)
    ensures Scanned(rs, i + 1, node, names, found, priority)
  {
  }

  /** The first eligible entry of the sorted list has the least priority. */
  lemma ScanFirst(rs: seq<PtpRecommend>, i: nat, node: Node, priority: Int64)
    requires Sorted(PriorityLess, rs) && i < |rs| && Scanned(rs, i, node, {}, false, priority)
    requires Eligible(rs[i], node) && rs[i].priority.Some?
    ensures Scanned(rs, i + 1, node, {rs[i].profile.value}, true, rs[i].priority.value)
  {
  }

  /** A later eligible entry joins if its priority is the one found. */
  lemma ScanLater(rs: seq<PtpRecommend>, i: nat, node: Node, names: set<string>, priority: Int64)
    requires i < |rs| && Scanned(rs, i, node, names, true, priority)
    requires Eligible(rs[i], node) && rs[i].priority.Some?
    ensures var names' := if rs[i].priority.value == priority then names + {rs[i].profile.value} else names;
            Scanned(rs, i + 1, node, names', true, priority)
  {
  }

  /** The scan of the sorted entries. It never stops early, so it reads the priority of every eligible entry. */
  method ScanSorted(sorted: seq<PtpRecommend>, node: Node) returns (r: Outcome<set<string>>)
    requires Sorted(PriorityLess, sorted)
    ensures r.Panic? <==> MissingPriority(sorted, node)
    ensures !r.Panic? ==> r == Ok(ChosenNames(sorted, node))
  {
    hide NodeMatches, Collected, ChosenNames;
    var names: set<string> := {};
    var found := false;
    var priority: Int64 := -1;
    for i := 0 to |sorted|
      invariant Scanned(sorted, i, node, names, found, priority)
    {
      var e := sorted[i];
      if e.profile.None? {
        ScanPassesOver(sorted, i, node, names, found, priority);
        continue;
      }
      if |e.rules| == 0 {
        ScanPassesOver(sorted, i, node, names, found, priority);
        continue;
      }
      var matches := MatchNode(node, e.rules);
      if !matches {
        ScanPassesOver(sorted, i, node, names, found, priority);
        continue;
      }
      if e.priority.None? {
        // both remaining branches read `*r.Priority`
        assert e in sorted && Eligible(e, node);
        return Panic;
      }
      if !found {
        ScanFirst(sorted, i, node, priority);
        names := names + {e.profile.value};
        priority := e.priority.value;
        found := true;
      } else {
        ScanLater(sorted, i, node, names, priority);
        if e.priority.value == priority {
          names := names + {e.profile.value};
        }
      }
    }
    ScanIsChoice(sorted, node, names, found, priority);
    return Ok(names);
  }

  /** `getRecommendProfilesNames`: gather, sort without stability, scan. */
  method GetRecommendProfilesNames(cfgs: seq<PtpConfig>, node: Node) returns (r: Outcome<set<string>>)
    ensures r.Panic? <==> MissingPriority(AllRecommends(cfgs), node)
    ensures !r.Panic? ==> r == Ok(ChosenNames(AllRecommends(cfgs), node))
  {
    hide ChosenNames, MissingPriority;
    var all: seq<PtpRecommend> := [];
    for i := 0 to |cfgs|
      invariant all == AllRecommends(cfgs[..i])
    {
      FlatMapStep(RecommendsOf, cfgs, i);
      all := all + cfgs[i].recommends;
    }
    assert cfgs[..|cfgs|] == cfgs;
    PriorityLessIsOrder();
    var sorted := SortSlice(all, PriorityLess);
    SameMembers(sorted, all);
    ChoiceIgnoresOrder(sorted, all, node);
    r := ScanSorted(sorted, node);
  }

  /** The choice depends only on which entries there are. */
  lemma ChoiceIgnoresOrder(rs: seq<PtpRecommend>, ts: seq<PtpRecommend>, node: Node)
    requires forall r :: r in rs <==> r in ts
    ensures ChosenNames(rs, node) == ChosenNames(ts, node)
    ensures MissingPriority(rs, node) <==> MissingPriority(ts, node)
  {
  }

  lemma {:induction false} FoundAppend(ps: seq<Profile>, qs: seq<Profile>, names: set<string>)
    ensures Found(ps + qs, names) == Found(ps, names) + Found(qs, names)
  {
    if ps == [] {
      assert ps + qs == qs;
    } else {
      assert (ps + qs)[1..] == ps[1..] + qs;
      FoundAppend(ps[1..], qs, names);
    }
  }

  lemma NamelessProfile(cfgs: seq<PtpConfig>, i: nat, j: nat)
    requires i < |cfgs| && j < |cfgs[i].profiles| && cfgs[i].profiles[j].name.None?
    ensures MissingName(AllProfiles(cfgs))
  {
    assert cfgs[i].profiles[j] in ProfilesOf(cfgs[i]);
    FlatMapMember(ProfilesOf, cfgs, cfgs[i].profiles[j]);
  }

  lemma FoundOne(p: Profile, names: set<string>)
    ensures Found([p], names) == if p.name.Some? && p.name.value in names then [p] else []
  {
  }

  lemma FoundOneMore(ps: seq<Profile>, p: Profile, names: set<string>)
    ensures Found(ps + [p], names) == Found(ps, names) + if p.name.Some? && p.name.value in names then [p] else []
  {
    hide Found;
    FoundAppend(ps, [p], names);
    FoundOne(p, names);
  }

  lemma MissingOneMore(ps: seq<Profile>, p: Profile)
    ensures MissingName(ps + [p]) <==> MissingName(ps) || p.name.None?
  {
  }

  /** `getRecommendProfiles`, and `getRecommendNodePtpProfiles`, which only adds logging. */
  method GetRecommendProfiles(cfgs: seq<PtpConfig>, node: Node) returns (r: Outcome<seq<Profile>>)
    ensures r == Recommended(cfgs, node)
  {
    var selected := GetRecommendProfilesNames(cfgs, node);
    if selected.Panic? {
      return Panic;
    }
    var names := selected.value;
    hide ChosenNames, MissingPriority, StableSort;
    var profiles: seq<Profile> := [];
    for i := 0 to |cfgs|
      invariant profiles == Found(AllProfiles(cfgs[..i]), names)
      invariant !MissingName(AllProfiles(cfgs[..i]))
    {
      FlatMapStep(ProfilesOf, cfgs, i);
      var ps := cfgs[i].profiles;
      ghost var before := AllProfiles(cfgs[..i]);
      assert before + ps[..0] == before;
      for j := 0 to |ps|
        invariant profiles == Found(before + ps[..j], names)
        invariant !MissingName(before + ps[..j])
      {
        var p := ps[j];
        assert before + ps[..j + 1] == (before + ps[..j]) + [p];
        FoundOneMore(before + ps[..j], p, names);
        MissingOneMore(before + ps[..j], p);
        if p.name.None? {
          NamelessProfile(cfgs, i, j);
          return Panic;
        }
        if p.name.value in names {
          profiles := profiles + [p];
        }
      }
      assert before + ps[..|ps|] == AllProfiles(cfgs[..i + 1]);
    }
    assert cfgs[..|cfgs|] == cfgs;
    if |profiles| != |names| {
      return Err;
    }
    NameLessIsOrder();
    var sorted := SliceStable(profiles, NameLess);
    return Ok(sorted);
  }
}

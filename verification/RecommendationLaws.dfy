/** When the length check of `getRecommendProfiles` means "all found", and what list order can change. */
module RecommendationLaws {
  import opened Prelude
  import opened PtpTypes
  import opened Sorting
  import opened Recommendation
  import Text

  /** How many profiles carry the name. */
  function Multiplicity(ps: seq<Profile>, n: string): nat {
    if ps == [] then 0
    else (if ps[0].name == Some(n) then 1 else 0) + Multiplicity(ps[1..], n)
  }

  ghost function TotalMultiplicity(ps: seq<Profile>, names: set<string>): nat
    decreases names
  {
    if names == {} then 0
    else
      var n :| n in names;
      Multiplicity(ps, n) + TotalMultiplicity(ps, names - {n})
  }

  ghost predicate Defined(ps: seq<Profile>, n: string) {
    exists p :: p in ps && p.name == Some(n)
  }

  lemma {:induction false} MultiplicityCounts(ps: seq<Profile>, n: string)
    ensures Multiplicity(ps, n) == 0 <==> !Defined(ps, n)
  {
    if ps != [] {
      MultiplicityCounts(ps[1..], n);
      assert ps == [ps[0]] + ps[1..];
      assert Defined(ps[1..], n) ==> Defined(ps, n);
      assert ps[0].name == Some(n) ==> Defined(ps, n);
    }
  }

  lemma {:induction false} FoundMembers(ps: seq<Profile>, names: set<string>)
    ensures forall p :: p in Found(ps, names) <==> p in ps && p.name.Some? && p.name.value in names
  {
    if ps != [] {
      FoundMembers(ps[1..], names);
      assert ps == [ps[0]] + ps[1..];
    }
  }

  lemma {:induction false} FoundSplits(ps: seq<Profile>, names: set<string>, n: string)
    requires n in names
    ensures |Found(ps, names)| == Multiplicity(ps, n) + |Found(ps, names - {n})|
  {
    if ps != [] {
      FoundSplits(ps[1..], names, n);
    }
  }

  lemma {:induction false} FoundNothing(ps: seq<Profile>)
    ensures Found(ps, {}) == []
  {
    if ps != [] {
      FoundNothing(ps[1..]);
    }
  }

  /** The number the check compares is the sum of the multiplicities of the chosen names. */
  lemma {:induction false} LengthIsTotalMultiplicity(ps: seq<Profile>, names: set<string>)
    ensures |Found(ps, names)| == TotalMultiplicity(ps, names)
    decreases names
  {
    if names == {} {
      FoundNothing(ps);
    } else {
      var n :| n in names && TotalMultiplicity(ps, names) == Multiplicity(ps, n) + TotalMultiplicity(ps, names - {n});
      FoundSplits(ps, names, n);
      LengthIsTotalMultiplicity(ps, names - {n});
    }
  }

  /** A sum of terms on one side of 1 equals the number of terms exactly when each is 1. */
  lemma {:induction false} TotalOfOnes(ps: seq<Profile>, names: set<string>)
    ensures (forall n :: n in names ==> Multiplicity(ps, n) >= 1) ==> TotalMultiplicity(ps, names) >= |names|
    ensures (forall n :: n in names ==> Multiplicity(ps, n) <= 1) ==> TotalMultiplicity(ps, names) <= |names|
    ensures TotalMultiplicity(ps, names) == |names|
            && ((forall n :: n in names ==> Multiplicity(ps, n) >= 1)
               || (forall n :: n in names ==> Multiplicity(ps, n) <= 1))
            ==> forall n :: n in names ==> Multiplicity(ps, n) == 1
    ensures (forall n :: n in names ==> Multiplicity(ps, n) == 1) ==> TotalMultiplicity(ps, names) == |names|
    decreases names
  {
    if names != {} {
      var n :| n in names && TotalMultiplicity(ps, names) == Multiplicity(ps, n) + TotalMultiplicity(ps, names - {n});
      TotalOfOnes(ps, names - {n});
      assert |names - {n}| == |names| - 1;
      assert names == (names - {n}) + {n};
    }
  }

  /**
   The check passes iff the multiplicities of the chosen names add up to their number.
   It passes with every name found iff every chosen name is defined exactly once; and a
   passing check is honest exactly when no chosen name is defined twice.
   */
  lemma LengthCheck(ps: seq<Profile>, names: set<string>)
    ensures |Found(ps, names)| == |names| <==> TotalMultiplicity(ps, names) == |names|
    ensures |Found(ps, names)| == |names| && (forall n :: n in names ==> Defined(ps, n))
            <==> forall n :: n in names ==> Multiplicity(ps, n) == 1
    ensures |Found(ps, names)| == |names| ==>
              ((forall n :: n in names ==> Defined(ps, n)) <==> forall n :: n in names ==> Multiplicity(ps, n) <= 1)
  {
    LengthIsTotalMultiplicity(ps, names);
    TotalOfOnes(ps, names);
    forall n ensures Multiplicity(ps, n) == 0 <==> !Defined(ps, n) {
      MultiplicityCounts(ps, n);
    }
  }

  /** A missing name and a duplicate name cancel out: `b` is recommended, never found, and no error is returned. */
  lemma LengthCheckIsFooled(node: Node, c: PtpConfig, p: Profile, q: Profile, rules: seq<MatchRule>)
    requires p.name == q.name == Some("a")
    requires c.profiles == [p, q]
    requires rules != [] && NodeMatches(node, rules)
    requires c.recommends == [PtpRecommend(Some("a"), Some(0), rules), PtpRecommend(Some("b"), Some(0), rules)]
    ensures Recommended([c], node) == Ok([p, q])
    ensures "b" in ChosenNames(AllRecommends([c]), node) && !Defined(AllProfiles([c]), "b")
  {
    var ra, rb := c.recommends[0], c.recommends[1];
    var rs, ps := AllRecommends([c]), AllProfiles([c]);
    FlatMapOne(RecommendsOf, c);
    FlatMapOne(ProfilesOf, c);
    assert rs == [ra, rb] && ps == [p, q];
    assert Eligible(ra, node) && Eligible(rb, node);
    assert Best(ra, rs, node) && Best(rb, rs, node);
    var names := ChosenNames(rs, node);
    assert names == {"a", "b"};
    assert Found([q], names) == [q] + Found([], names);
    assert Found(ps, names) == [p] + Found([q], names) == [p, q];
    Text.LessIsTotal("a", "a");
    assert [p, q][..1] == [p];
    assert StableSort(NameLess, [p]) == [p];
    assert Insert(NameLess, [p], q) == [p] + Insert(NameLess, [], q);
    assert StableSort(NameLess, [p, q]) == [p, q];
  }

  /** An entry without a priority that matches a node makes the selection for it panic. */
  lemma NilPriorityPanics(node: Node, c: PtpConfig, n: string, rules: seq<MatchRule>)
    requires rules != [] && NodeMatches(node, rules)
    requires c.recommends == [PtpRecommend(Some(n), None, rules)]
    ensures Recommended([c], node).Panic?
  {
    FlatMapOne(RecommendsOf, c);
    assert c.recommends[0] in AllRecommends([c]) && Eligible(c.recommends[0], node);
  }

  /** A profile without a name makes the selection for every node panic, also where nothing is recommended. */
  lemma NamelessProfilePanics(node: Node, c: PtpConfig, p: Profile)
    requires c.profiles == [p] && p.name.None?
    ensures Recommended([c], node).Panic?
  {
    FlatMapOne(ProfilesOf, c);
    assert p in AllProfiles([c]);
  }

  ghost predicate StrictlyIncreasing(ps: seq<Profile>) {
    forall i, j :: 0 <= i < j < |ps| ==> NameLess(ps[i], ps[j])
  }

  /** A name that occurs at two places has multiplicity at least two. */
  lemma {:induction false} TwoPlaces(ps: seq<Profile>, i: nat, j: nat, n: string)
    requires i < j < |ps| && ps[i].name == ps[j].name == Some(n)
    ensures Multiplicity(ps, n) >= 2
  {
    if i == 0 {
      MultiplicityCounts(ps[1..], n);
      assert ps[j] == ps[1..][j - 1];
      assert Defined(ps[1..], n);
    } else {
      TwoPlaces(ps[1..], i - 1, j - 1, n);
    }
  }

  lemma {:induction false} FoundMultiplicity(ps: seq<Profile>, names: set<string>, n: string)
    ensures Multiplicity(Found(ps, names), n) <= Multiplicity(ps, n)
  {
    if ps != [] {
      FoundMultiplicity(ps[1..], names, n);
      assert Found(ps, names) == Found(ps[1..], names) || Found(ps, names)[1..] == Found(ps[1..], names);
    }
  }

  lemma MultiplicityPermutation(ps: seq<Profile>, qs: seq<Profile>, n: string)
    requires multiset(ps) == multiset(qs)
    ensures Multiplicity(ps, n) == Multiplicity(qs, n)
  {
    MultiplicityIsLength(ps, n);
    MultiplicityIsLength(qs, n);
    FoundIsFlatMap(ps, {n});
    FoundIsFlatMap(qs, {n});
    FlatMapPermutation(Keep({n}), ps, qs);
    SameMembers(Found(ps, {n}), Found(qs, {n}));
  }

  function Keep(names: set<string>): Profile -> seq<Profile> {
    (p: Profile) => if p.name.Some? && p.name.value in names then [p] else []
  }

  lemma {:induction false} FoundIsFlatMap(ps: seq<Profile>, names: set<string>)
    ensures Found(ps, names) == FlatMap(Keep(names), ps)
  {
    if ps != [] {
      FoundIsFlatMap(ps[1..], names);
    }
  }

  lemma {:induction false} MultiplicityIsLength(ps: seq<Profile>, n: string)
    ensures Multiplicity(ps, n) == |Found(ps, {n})|
  {
    if ps != [] {
      MultiplicityIsLength(ps[1..], n);
    }
  }

  /** Sorting profiles none of whose names repeats gives strictly increasing names. */
  lemma SortedDistinct(ps: seq<Profile>)
    requires forall p :: p in ps ==> p.name.Some?
    requires forall n :: Multiplicity(ps, n) <= 1
    ensures StrictlyIncreasing(StableSort(NameLess, ps))
  {
    NameLessIsOrder();
    StableSortIsStable(NameLess, ps);
    var s := StableSort(NameLess, ps);
    SameMembers(s, ps);
    forall i, j | 0 <= i < j < |s| ensures NameLess(s[i], s[j]) {
      assert s[i] in s && s[j] in s;
      Text.LessIsTotal(NameOf(s[i]), NameOf(s[j]));
      if s[i].name == s[j].name {
        TwoPlaces(s, i, j, s[i].name.value);
        MultiplicityPermutation(s, ps, s[i].name.value);
      }
    }
  }

  /**
   If no chosen name is defined twice, the lookup succeeds iff every chosen name is defined,
   and then returns exactly the profiles so named, with strictly increasing names.
   */
  lemma UniqueNamesLookup(cfgs: seq<PtpConfig>, node: Node)
    requires !Recommended(cfgs, node).Panic?
    requires forall n :: n in ChosenNames(AllRecommends(cfgs), node) ==> Multiplicity(AllProfiles(cfgs), n) <= 1
    ensures Recommended(cfgs, node).Ok? <==>
            forall n :: n in ChosenNames(AllRecommends(cfgs), node) ==> Defined(AllProfiles(cfgs), n)
    ensures Recommended(cfgs, node).Ok? ==>
              var result := Recommended(cfgs, node).value;
              && StrictlyIncreasing(result)
              && forall p :: p in result <==>
                   p in AllProfiles(cfgs) && p.name.Some? && p.name.value in ChosenNames(AllRecommends(cfgs), node)
  {
    var names, ps := ChosenNames(AllRecommends(cfgs), node), AllProfiles(cfgs);
    var found := Found(ps, names);
    LengthCheck(ps, names);
    forall n | n in names && Defined(ps, n) ensures Multiplicity(ps, n) == 1 {
      MultiplicityCounts(ps, n);
    }
    FoundMembers(ps, names);
    ChosenAreFoundOnce(ps, names);
    SortedDistinct(found);
    NameLessIsOrder();
    StableSortIsStable(NameLess, found);
    SameMembers(StableSort(NameLess, found), found);
  }

  lemma ChosenAreFoundOnce(ps: seq<Profile>, names: set<string>)
    requires forall n :: n in names ==> Multiplicity(ps, n) <= 1
    ensures forall n :: Multiplicity(Found(ps, names), n) <= 1
  {
    forall n ensures Multiplicity(Found(ps, names), n) <= 1 {
      FoundMultiplicity(ps, names, n);
      FoundMembers(ps, names);
      MultiplicityCounts(Found(ps, names), n);
    }
  }

  // ----- list order -----

  /** The two lists hold the same recommend entries and the same profiles, in whatever order and grouping. */
  ghost predicate SameEntries(cfgs: seq<PtpConfig>, cfgs': seq<PtpConfig>) {
    && multiset(AllRecommends(cfgs)) == multiset(AllRecommends(cfgs'))
    && multiset(AllProfiles(cfgs)) == multiset(AllProfiles(cfgs'))
  }

  lemma PermutedListHasSameEntries(cfgs: seq<PtpConfig>, cfgs': seq<PtpConfig>)
    requires multiset(cfgs) == multiset(cfgs')
    ensures SameEntries(cfgs, cfgs')
  {
    FlatMapPermutation(RecommendsOf, cfgs, cfgs');
    FlatMapPermutation(ProfilesOf, cfgs, cfgs');
  }

  lemma {:induction false} PermutedConfigsHaveSameEntries(cfgs: seq<PtpConfig>, cfgs': seq<PtpConfig>)
    requires |cfgs| == |cfgs'|
    requires forall i :: 0 <= i < |cfgs| ==>
      && multiset(cfgs[i].recommends) == multiset(cfgs'[i].recommends)
      && multiset(cfgs[i].profiles) == multiset(cfgs'[i].profiles)
    ensures SameEntries(cfgs, cfgs')
  {
    if cfgs != [] {
      PermutedConfigsHaveSameEntries(cfgs[1..], cfgs'[1..]);
    }
  }

  lemma LeastComesFirst(s: seq<Profile>, p: Profile)
    requires StrictlyIncreasing(s) && p in s
    ensures p == s[0] || NameLess(s[0], p)
  {
  }

  lemma NameLessIsAsymmetric(p: Profile, q: Profile)
    ensures !(NameLess(p, q) && NameLess(q, p))
  {
    Text.LessIsTotal(NameOf(p), NameOf(q));
  }

  lemma SameHead(s: seq<Profile>, t: seq<Profile>)
    requires StrictlyIncreasing(s) && StrictlyIncreasing(t)
    requires multiset(s) == multiset(t) && s != []
    ensures t != [] && s[0] == t[0]
    ensures multiset(s[1..]) == multiset(t[1..])
  {
    SameMembers(s, t);
    LeastComesFirst(s, t[0]);
    LeastComesFirst(t, s[0]);
    NameLessIsAsymmetric(s[0], t[0]);
    assert s == [s[0]] + s[1..] && t == [t[0]] + t[1..];
    assert multiset(s[1..]) == multiset(s) - multiset{s[0]};
    assert multiset(t[1..]) == multiset(t) - multiset{t[0]};
  }

  /** A strictly sorted sequence is determined by its elements. */
  lemma {:induction false} StrictOrderIsUnique(s: seq<Profile>, t: seq<Profile>)
    requires StrictlyIncreasing(s) && StrictlyIncreasing(t)
    requires multiset(s) == multiset(t)
    ensures s == t
  {
    if s == [] {
      assert |multiset(t)| == 0;
    } else {
      SameHead(s, t);
      StrictOrderIsUnique(s[1..], t[1..]);
      assert s == [s[0]] + s[1..] && t == [t[0]] + t[1..];
    }
  }

  lemma SortOfPermutation(f: seq<Profile>, f': seq<Profile>)
    requires multiset(f) == multiset(f')
    ensures multiset(StableSort(NameLess, f)) == multiset(StableSort(NameLess, f'))
    ensures (forall p :: p in f ==> p.name.Some?) && (forall n :: Multiplicity(f, n) <= 1)
            ==> StableSort(NameLess, f) == StableSort(NameLess, f')
  {
    NameLessIsOrder();
    StableSortIsStable(NameLess, f);
    StableSortIsStable(NameLess, f');
    if (forall p :: p in f ==> p.name.Some?) && (forall n :: Multiplicity(f, n) <= 1) {
      SameMembers(f, f');
      forall n ensures Multiplicity(f', n) <= 1 {
        MultiplicityPermutation(f, f', n);
      }
      SortedDistinct(f);
      SortedDistinct(f');
      StrictOrderIsUnique(StableSort(NameLess, f), StableSort(NameLess, f'));
    }
  }

  lemma FoundPermutes(ps: seq<Profile>, ps': seq<Profile>, names: set<string>)
    requires multiset(ps) == multiset(ps')
    ensures multiset(Found(ps, names)) == multiset(Found(ps', names))
    ensures |Found(ps, names)| == |Found(ps', names)|
  {
    FoundIsFlatMap(ps, names);
    FoundIsFlatMap(ps', names);
    FlatMapPermutation(Keep(names), ps, ps');
    var f, f' := Found(ps, names), Found(ps', names);
    assert |f| == |multiset(f)| == |f'|;
  }

  lemma SortOfFound(ps: seq<Profile>, ps': seq<Profile>, names: set<string>)
    requires multiset(ps) == multiset(ps')
    ensures multiset(StableSort(NameLess, Found(ps, names))) == multiset(StableSort(NameLess, Found(ps', names)))
    ensures (forall n :: n in names ==> Multiplicity(ps, n) <= 1)
            ==> StableSort(NameLess, Found(ps, names)) == StableSort(NameLess, Found(ps', names))
  {
    FoundPermutes(ps, ps', names);
    SortOfPermutation(Found(ps, names), Found(ps', names));
    if forall n :: n in names ==> Multiplicity(ps, n) <= 1 {
      ChosenAreFoundOnce(ps, names);
      FoundMembers(ps, names);
    }
  }

  lemma SelectionIgnoresOrder(rs: seq<PtpRecommend>, rs': seq<PtpRecommend>, ps: seq<Profile>, ps': seq<Profile>,
                              node: Node)
    requires multiset(rs) == multiset(rs') && multiset(ps) == multiset(ps')
    ensures Selected(rs, ps, node).Panic? <==> Selected(rs', ps', node).Panic?
    ensures Selected(rs, ps, node).Ok? <==> Selected(rs', ps', node).Ok?
    ensures Selected(rs, ps, node).Ok? ==>
              multiset(Selected(rs, ps, node).value) == multiset(Selected(rs', ps', node).value)
    ensures (forall n :: n in ChosenNames(rs, node) ==> Multiplicity(ps, n) <= 1)
            ==> Selected(rs, ps, node) == Selected(rs', ps', node)
  {
    var names := ChosenNames(rs, node);
    assert names == ChosenNames(rs', node) && (MissingPriority(rs, node) <==> MissingPriority(rs', node)) by {
      SameMembers(rs, rs');
      ChoiceIgnoresOrder(rs, rs', node);
    }
    assert MissingName(ps) <==> MissingName(ps') by {
      SameMembers(ps, ps');
    }
    hide ChosenNames, MissingPriority, MissingName, Found, StableSort, Multiplicity;
    FoundPermutes(ps, ps', names);
    SortOfFound(ps, ps', names);
  }

  /**
   Reordering never changes whether a node's selection panics, fails or succeeds, nor which
   profiles it returns; and when no chosen name is defined twice it changes nothing at all.
   */
  lemma OrderIsIrrelevant(cfgs: seq<PtpConfig>, cfgs': seq<PtpConfig>, node: Node)
    requires SameEntries(cfgs, cfgs')
    ensures Recommended(cfgs, node).Panic? <==> Recommended(cfgs', node).Panic?
    ensures Recommended(cfgs, node).Ok? <==> Recommended(cfgs', node).Ok?
    ensures Recommended(cfgs, node).Ok? ==>
              multiset(Recommended(cfgs, node).value) == multiset(Recommended(cfgs', node).value)
    ensures (forall n :: n in ChosenNames(AllRecommends(cfgs), node) ==> Multiplicity(AllProfiles(cfgs), n) <= 1)
            ==> Recommended(cfgs, node) == Recommended(cfgs', node)
  {
    SelectionIgnoresOrder(AllRecommends(cfgs), AllRecommends(cfgs'), AllProfiles(cfgs), AllProfiles(cfgs'), node);
  }
}

/**
 The generated deep copies (`api/v1/zz_generated.deepcopy.go`) on a heap of pointers, slices and
 maps, and `MutateProfile` (`test/pkg/ptphelper/ptphelper.go`), which writes to such a copy.
 */
module DeepCopy {
  import opened Prelude
  import opened PtpTypes
  import Preemption

  /** What a Go pointer points to, or what a Go map variable refers to. */
  class Cell<T> {
    var value: T

    constructor (v: T)
      ensures value == v
    {
      value := v;
    }
  }

  // ----- the structs: plain values that hold references -----

  datatype RuleStruct = RuleStruct(nodeLabel: Cell?<string>, nodeName: Cell?<string>)

  datatype RecommendStruct = RecommendStruct(profile: Cell?<string>, priority: Cell?<Int64>, rules: array?<RuleStruct>)

  /** A slice of bytes, possibly nil. */
  type Raw = array?<char>

  /** A plugin is a pointer to a struct that holds a slice. */
  type PluginMap = map<string, Cell?<Raw>>

  datatype Names = Names(name: Cell?<string>, iface: Cell?<string>)

  datatype Opts = Opts(ptp4l: Cell?<string>, phc2sys: Cell?<string>, ts2phc: Cell?<string>, synce4l: Cell?<string>)

  datatype Confs = Confs(ptp4l: Cell?<string>, phc2sys: Cell?<string>, ts2phc: Cell?<string>, synce4l: Cell?<string>)

  datatype Tuning = Tuning(
    schedulingPolicy: Cell?<string>,
    schedulingPriority: Cell?<Int64>,
    clockThreshold: Cell?<ClockThreshold>,
    settings: Cell?<map<string, string>>)

  datatype Texts = Texts(names: Names, opts: Opts, confs: Confs)

  datatype Pointers = Pointers(texts: Texts, tuning: Tuning)

  /** The fifteen fields of `PtpProfile`, in groups. */
  datatype ProfileStruct = ProfileStruct(pointers: Pointers, plugins: Cell?<PluginMap>)

  class PtpConfigObject {
    var namespace: string
    var name: string
    var profiles: array?<ProfileStruct>
    var recommends: array?<RecommendStruct>

    constructor (namespace: string, name: string, profiles: array?<ProfileStruct>, recommends: array?<RecommendStruct>)
      ensures this.namespace == namespace && this.name == name
      ensures this.profiles == profiles && this.recommends == recommends
    {
      this.namespace, this.name, this.profiles, this.recommends := namespace, name, profiles, recommends;
    }
  }

  // ----- what is reachable, and the value it stands for -----

  ghost function Ref(o: object?): set<object> {
    if o == null then {} else {o}
  }

  function Deref<T>(c: Cell?<T>): Option<T>
    reads c
  {
    if c == null then None else Some(c.value)
  }

  ghost function RuleReach(r: RuleStruct): set<object> {
    Ref(r.nodeLabel) + Ref(r.nodeName)
  }

  ghost function RuleValue(r: RuleStruct): MatchRule
    reads RuleReach(r)
  {
    MatchRule(Deref(r.nodeLabel), Deref(r.nodeName))
  }

  ghost function RulesReach(s: seq<RuleStruct>): set<object> {
    set i, o | 0 <= i < |s| && o in RuleReach(s[i]) :: o
  }

  ghost function RulesValue(s: seq<RuleStruct>): (v: seq<MatchRule>)
    reads RulesReach(s)
    ensures |v| == |s| && forall i :: 0 <= i < |s| ==> v[i] == RuleValue(s[i])
  {
    seq(|s|, i requires 0 <= i < |s| reads RulesReach(s) => RuleValue(s[i]))
  }

  ghost function RecommendReach(r: RecommendStruct): (reach: set<object>)
    reads r.rules
    ensures r.rules != null ==> r.rules in reach
  {
    Ref(r.profile) + Ref(r.priority) + Ref(r.rules) + if r.rules == null then {} else RulesReach(r.rules[..])
  }

  ghost function RecommendValue(r: RecommendStruct): PtpRecommend
    reads r.rules, RecommendReach(r)
  {
    PtpRecommend(Deref(r.profile), Deref(r.priority), if r.rules == null then [] else RulesValue(r.rules[..]))
  }

  ghost function RuleArrays(s: seq<RecommendStruct>): set<object> {
    set i | 0 <= i < |s| && s[i].rules != null :: s[i].rules
  }

  ghost function RecommendsReach(s: seq<RecommendStruct>): (reach: set<object>)
    reads RuleArrays(s)
    ensures RuleArrays(s) <= reach
  {
    assert forall i :: 0 <= i < |s| && s[i].rules != null ==> s[i].rules in RecommendReach(s[i]);
    set i, o | 0 <= i < |s| && o in RecommendReach(s[i]) :: o
  }

  ghost function RecommendsValue(s: seq<RecommendStruct>): (v: seq<PtpRecommend>)
    reads RuleArrays(s), RecommendsReach(s)
    ensures |v| == |s| && forall i :: 0 <= i < |s| ==> v[i] == RecommendValue(s[i])
  {
    seq(|s|, i requires 0 <= i < |s| reads RuleArrays(s), RecommendsReach(s) => RecommendValue(s[i]))
  }

  ghost function PluginEntries(m: PluginMap): set<object> {
    set k, o: object | k in m && o in Ref(m[k]) :: o
  }

  /** The map and the structs in it. */
  ghost function PluginNodes(c: Cell?<PluginMap>): (nodes: set<object>)
    reads c
    ensures c != null ==> c in nodes && forall k :: k in c.value && c.value[k] != null ==> c.value[k] in nodes
  {
    if c == null then {}
    else
      assert forall k :: k in c.value && c.value[k] != null ==> c.value[k] in Ref(c.value[k]);
      {c} + PluginEntries(c.value)
  }

  ghost function PluginRaws(c: Cell?<PluginMap>): set<object>
    reads c, PluginNodes(c)
  {
    if c == null then {} else set k, o | k in c.value && c.value[k] != null && o in Ref(c.value[k].value) :: o
  }

  ghost function PluginsReach(c: Cell?<PluginMap>): (reach: set<object>)
    reads c, PluginNodes(c)
    ensures c != null ==> c in reach
    ensures PluginNodes(c) <= reach
  {
    PluginNodes(c) + PluginRaws(c)
  }

  function RawText(a: Raw): string
    reads a
  {
    if a == null then "" else a[..]
  }

  ghost function PluginText(p: Cell?<Raw>): Option<string>
    reads p, if p == null then {} else Ref(p.value)
  {
    if p == null then None else Some(RawText(p.value))
  }

  ghost function PluginsValue(c: Cell?<PluginMap>): Option<map<string, Option<string>>>
    reads c, PluginNodes(c), PluginsReach(c)
  {
    if c == null then None
    else
      assert forall k :: k in c.value && c.value[k] != null ==> Ref(c.value[k].value) <= PluginRaws(c);
      Some(map k | k in c.value :: PluginText(c.value[k]))
  }

  ghost function NamesReach(n: Names): set<object> { Ref(n.name) + Ref(n.iface) }

  ghost function OptsReach(o: Opts): set<object> { Ref(o.ptp4l) + Ref(o.phc2sys) + Ref(o.ts2phc) + Ref(o.synce4l) }

  ghost function ConfsReach(c: Confs): set<object> { Ref(c.ptp4l) + Ref(c.phc2sys) + Ref(c.ts2phc) + Ref(c.synce4l) }

  ghost function TuningReach(t: Tuning): set<object> {
    Ref(t.schedulingPolicy) + Ref(t.schedulingPriority) + Ref(t.clockThreshold) + Ref(t.settings)
  }

  ghost function TextsReach(t: Texts): set<object> { NamesReach(t.names) + OptsReach(t.opts) + ConfsReach(t.confs) }

  ghost function PointersReach(p: Pointers): set<object> {
    TextsReach(p.texts) + TuningReach(p.tuning)
  }

  ghost function ProfileReach(p: ProfileStruct): (reach: set<object>)
    reads p.plugins, PluginNodes(p.plugins)
    ensures PluginNodes(p.plugins) <= reach
  {
    PointersReach(p.pointers) + PluginsReach(p.plugins)
  }

  const NIL_PROFILE := ProfileStruct(
    Pointers(
      Texts(Names(null, null), Opts(null, null, null, null), Confs(null, null, null, null)),
      Tuning(null, null, null, null)),
    null)

  const BLANK := Profile(None, None, None, None, None, None, None, None, None, None, None, None, None, None, None)

  ghost function WithNames(n: Names, v: Profile): Profile
    reads NamesReach(n)
  {
    v.(name := Deref(n.name), iface := Deref(n.iface))
  }

  ghost function WithOpts(o: Opts, v: Profile): Profile
    reads OptsReach(o)
  {
    v.(ptp4lOpts := Deref(o.ptp4l), phc2sysOpts := Deref(o.phc2sys), ts2phcOpts := Deref(o.ts2phc),
        synce4lOpts := Deref(o.synce4l))
  }

  ghost function WithConfs(c: Confs, v: Profile): Profile
    reads ConfsReach(c)
  {
    v.(ptp4lConf := Deref(c.ptp4l), phc2sysConf := Deref(c.phc2sys), ts2phcConf := Deref(c.ts2phc),
        synce4lConf := Deref(c.synce4l))
  }

  ghost function WithTuning(t: Tuning, v: Profile): Profile
    reads TuningReach(t)
  {
    v.(schedulingPolicy := Deref(t.schedulingPolicy), schedulingPriority := Deref(t.schedulingPriority),
       clockThreshold := Deref(t.clockThreshold), settings := Deref(t.settings))
  }

  ghost function TextsValue(t: Texts): Profile
    reads TextsReach(t)
  {
    WithConfs(t.confs, WithOpts(t.opts, WithNames(t.names, BLANK)))
  }

  ghost function PointersValue(p: Pointers): Profile
    reads PointersReach(p)
  {
    WithTuning(p.tuning, TextsValue(p.texts))
  }

  ghost function ProfileValue(p: ProfileStruct): Profile
    reads p.plugins, PluginNodes(p.plugins), ProfileReach(p)
  {
    PointersValue(p.pointers).(plugins := PluginsValue(p.plugins))
  }

  ghost function PluginMaps(s: seq<ProfileStruct>): set<object> {
    set i | 0 <= i < |s| && s[i].plugins != null :: s[i].plugins
  }

  /** The maps of plugins and the structs in them. */
  ghost function PluginCells(s: seq<ProfileStruct>): (cells: set<object>)
    reads PluginMaps(s)
    ensures PluginMaps(s) <= cells && forall i :: 0 <= i < |s| ==> PluginNodes(s[i].plugins) <= cells
  {
    assert forall i :: 0 <= i < |s| && s[i].plugins != null ==> s[i].plugins in PluginNodes(s[i].plugins);
    set i, o | 0 <= i < |s| && o in PluginNodes(s[i].plugins) :: o
  }

  ghost function ProfilesReach(s: seq<ProfileStruct>): (reach: set<object>)
    reads PluginMaps(s), PluginCells(s)
    ensures PluginCells(s) <= reach
  {
    assert forall i :: 0 <= i < |s| ==> PluginNodes(s[i].plugins) <= ProfileReach(s[i]);
    set i, o | 0 <= i < |s| && o in ProfileReach(s[i]) :: o
  }

  ghost function ProfilesValue(s: seq<ProfileStruct>): (v: seq<Profile>)
    reads PluginMaps(s), PluginCells(s), ProfilesReach(s)
    ensures |v| == |s| && forall i :: 0 <= i < |s| ==> v[i] == ProfileValue(s[i])
  {
    seq(|s|, i requires 0 <= i < |s| reads PluginMaps(s), PluginCells(s), ProfilesReach(s) => ProfileValue(s[i]))
  }

  // ----- what the values and the reach stand for, pointer by pointer -----

  /** The field is absent iff the pointer is nil, and otherwise what it points to. */
  ghost predicate Shows<T(!new)>(v: Option<T>, c: Cell?<T>)
    reads c
  {
    if c == null then v.None? else v == Some(c.value)
  }

  lemma RecommendFields(r: RecommendStruct)
    ensures var v := RecommendValue(r);
            && Shows(v.profile, r.profile) && Shows(v.priority, r.priority)
            && |v.rules| == (if r.rules == null then 0 else r.rules.Length)
            && forall i :: 0 <= i < |v.rules| ==>
                 Shows(v.rules[i].nodeLabel, r.rules[i].nodeLabel) && Shows(v.rules[i].nodeName, r.rules[i].nodeName)
    ensures r.profile != null ==> r.profile in RecommendReach(r)
    ensures r.priority != null ==> r.priority in RecommendReach(r)
    ensures r.rules != null ==> r.rules in RecommendReach(r)
    ensures r.rules != null ==> forall i :: 0 <= i < r.rules.Length ==>
              Ref(r.rules[i].nodeLabel) + Ref(r.rules[i].nodeName) <= RecommendReach(r)
  {
    if r.rules != null {
      forall i | 0 <= i < r.rules.Length
        ensures Ref(r.rules[i].nodeLabel) + Ref(r.rules[i].nodeName) <= RecommendReach(r)
      {
        assert r.rules[..][i] == r.rules[i];
        assert RuleReach(r.rules[..][i]) <= RulesReach(r.rules[..]);
      }
    }
  }

  lemma ProfileFields(p: ProfileStruct)
    ensures var v, t, u := ProfileValue(p), p.pointers.texts, p.pointers.tuning;
            && Shows(v.name, t.names.name) && Shows(v.iface, t.names.iface)
            && Shows(v.ptp4lOpts, t.opts.ptp4l) && Shows(v.phc2sysOpts, t.opts.phc2sys)
            && Shows(v.ts2phcOpts, t.opts.ts2phc) && Shows(v.synce4lOpts, t.opts.synce4l)
            && Shows(v.ptp4lConf, t.confs.ptp4l) && Shows(v.phc2sysConf, t.confs.phc2sys)
            && Shows(v.ts2phcConf, t.confs.ts2phc) && Shows(v.synce4lConf, t.confs.synce4l)
            && Shows(v.schedulingPolicy, u.schedulingPolicy) && Shows(v.schedulingPriority, u.schedulingPriority)
            && Shows(v.clockThreshold, u.clockThreshold) && Shows(v.settings, u.settings)
            && (v.plugins.None? <==> p.plugins == null)
            && (p.plugins != null ==>
                  && v.plugins.value.Keys == p.plugins.value.Keys
                  && forall k :: k in p.plugins.value ==>
                       var plugin := p.plugins.value[k];
                       v.plugins.value[k]
                       == if plugin == null then None else if plugin.value == null then Some("")
                           else Some(plugin.value[..]))
  {
  }

  lemma ProfilePointers(p: ProfileStruct)
    ensures var t, u, reach := p.pointers.texts, p.pointers.tuning, ProfileReach(p);
            && Ref(t.names.name) + Ref(t.names.iface) <= reach
            && Ref(t.opts.ptp4l) + Ref(t.opts.phc2sys) + Ref(t.opts.ts2phc) + Ref(t.opts.synce4l) <= reach
            && Ref(t.confs.ptp4l) + Ref(t.confs.phc2sys) + Ref(t.confs.ts2phc) + Ref(t.confs.synce4l) <= reach
            && Ref(u.schedulingPolicy) + Ref(u.schedulingPriority) + Ref(u.clockThreshold) + Ref(u.settings) <= reach
            && Ref(p.plugins) <= reach
            && (p.plugins != null ==>
                  forall k :: k in p.plugins.value && p.plugins.value[k] != null ==>
                    p.plugins.value[k] in reach && Ref(p.plugins.value[k].value) <= reach)
  {
    if p.plugins != null {
      forall k | k in p.plugins.value && p.plugins.value[k] != null
        ensures p.plugins.value[k] in ProfileReach(p) && Ref(p.plugins.value[k].value) <= ProfileReach(p)
      {
        assert Ref(p.plugins.value[k].value) <= PluginRaws(p.plugins);
      }
    }
  }

  /** A pointer that is not nil is the one thing it refers to. */
  lemma RefIs(o: object)
    ensures Ref(o) == {o} && Ref(null) == {}
  {
  }

  method CopyCell<T>(c: Cell?<T>) returns (r: Cell?<T>)
    ensures fresh(Ref(r)) && allocated(Ref(r)) && Deref(r) == old(Deref(c))
  {
    if c != null {
      r := new Cell(c.value);
    } else {
      r := null;
    }
  }

  /** `MatchRule.DeepCopyInto`. */
  method CopyRule(r: RuleStruct) returns (out: RuleStruct)
    ensures RuleValue(out) == old(RuleValue(r)) && fresh(RuleReach(out))
  {
    var nodeLabel := CopyCell(r.nodeLabel);
    var nodeName := CopyCell(r.nodeName);
    out := RuleStruct(nodeLabel, nodeName);
  }

  /** The `Match` loop of `PtpRecommend.DeepCopyInto`. */
  method CopyRules(src: array<RuleStruct>) returns (dst: array<RuleStruct>)
    ensures fresh(dst) && fresh(RulesReach(dst[..]))
    ensures RulesValue(dst[..]) == old(RulesValue(src[..]))
  {
    dst := new RuleStruct[src.Length];
    for i := 0 to src.Length
      invariant forall k :: 0 <= k < i ==> fresh(RuleReach(dst[k]))
      invariant forall k :: 0 <= k < i ==> RuleValue(dst[k]) == old(RuleValue(src[k]))
    {
      dst[i] := CopyRule(src[i]);
    }
  }

  /** `PtpRecommend.DeepCopyInto`. */
  method CopyRecommend(r: RecommendStruct) returns (out: RecommendStruct)
    ensures fresh(RecommendReach(out))
    ensures RecommendValue(out) == old(RecommendValue(r))
  {
    var profile := CopyCell(r.profile);
    var priority := CopyCell(r.priority);
    var rules: array?<RuleStruct> := null;
    if r.rules != null {
      rules := CopyRules(r.rules);
    }
    out := RecommendStruct(profile, priority, rules);
  }

  /** No two of the entries share their slice of rules. */
  ghost predicate SeparateRules(s: seq<RecommendStruct>) {
    forall i, j :: 0 <= i < j < |s| && s[i].rules != null ==> s[i].rules != s[j].rules
  }

  lemma OneMoreRecommend(s: seq<RecommendStruct>, r: RecommendStruct)
    ensures RecommendsReach(s + [r]) == RecommendsReach(s) + RecommendReach(r)
    ensures RecommendsValue(s + [r]) == RecommendsValue(s) + [RecommendValue(r)]
  {
    hide RecommendReach, RecommendValue;
    forall o | o in RecommendsReach(s) + RecommendReach(r) ensures o in RecommendsReach(s + [r]) {
      if o in RecommendReach(r) {
        assert (s + [r])[|s|] == r;
      } else {
        var i :| 0 <= i < |s| && o in RecommendReach(s[i]);
        assert (s + [r])[i] == s[i];
      }
    }
  }

  /** The `Recommend` loop of `PtpConfigSpec.DeepCopyInto`. */
  method CopyRecommends(src: array<RecommendStruct>) returns (dst: array<RecommendStruct>)
    ensures fresh(dst) && fresh(RecommendsReach(dst[..])) && SeparateRules(dst[..]) && dst !in RecommendsReach(dst[..])
    ensures RecommendsValue(dst[..]) == old(RecommendsValue(src[..]))
  {
    hide RecommendReach, RecommendValue, RecommendsReach, RecommendsValue, RuleArrays;
    ghost var wanted, copies: seq<RecommendStruct> := RecommendsValue(src[..]), [];
    dst := new RecommendStruct[src.Length];
    NoRecommends();
    for i := 0 to src.Length
      invariant |copies| == i && dst[..i] == copies && SeparateRules(copies)
      invariant fresh(RecommendsReach(copies)) && dst !in RecommendsReach(copies)
      invariant RecommendsValue(copies) == wanted[..i]
    {
      assert old(allocated(RecommendsReach(src[..]))) && src[..] == old(src[..]);
      assert RecommendsValue(src[..]) == wanted;
      assert RecommendValue(src[i]) == wanted[i];
      label before:
      assert allocated(RecommendsReach(copies));
      var out := CopyRecommend(src[i]);
      assert RecommendsReach(copies) == old@before(RecommendsReach(copies));
      assert RecommendsValue(copies) == wanted[..i];
      OneMoreRecommend(copies, out);
      copies := copies + [out];
      dst[i] := out;
    }
    assert dst[..] == copies;
  }

  lemma NoRecommends()
    ensures RecommendsReach([]) == {} && RecommendsValue([]) == [] && RuleArrays([]) == {}
  {
  }

  /** `JSON.DeepCopyInto`; a nil slice stays nil. */
  method CopyRaw(a: Raw) returns (out: Raw)
    ensures fresh(Ref(out)) && RawText(out) == old(RawText(a))
  {
    out := null;
    if a != null {
      out := new char[a.Length](i requires 0 <= i < a.Length reads a => a[i]);
    }
  }

  method CopyPlugin(p: Cell?<Raw>) returns (out: Cell?<Raw>)
    ensures out != null ==> fresh(out) && fresh(Ref(out.value))
    ensures PluginText(out) == old(PluginText(p))
  {
    if p == null {
      return null;
    }
    var raw := CopyRaw(p.value);
    out := new Cell(raw);
  }

  /** The `Plugins` loop of `PtpProfile.DeepCopyInto`; a nil entry stays nil. */
  method CopyEntries(c: Cell<PluginMap>) returns (out: Cell<PluginMap>)
    ensures fresh(out) && out.value.Keys == old(c.value.Keys)
    ensures forall k :: k in out.value && out.value[k] != null ==> fresh(out.value[k]) && fresh(Ref(out.value[k].value))
    ensures forall k :: k in out.value ==> PluginText(out.value[k]) == old(PluginText(c.value[k]))
  {
    out := new Cell(map[]);
    var left := c.value.Keys;
    while left != {}
      invariant left <= c.value.Keys && out.value.Keys == c.value.Keys - left
      invariant forall k :: k in out.value && out.value[k] != null ==>
          fresh(out.value[k]) && fresh(Ref(out.value[k].value))
      invariant forall k :: k in out.value ==> PluginText(out.value[k]) == old(PluginText(c.value[k]))
      decreases left
    {
      var key :| key in left;
      left := left - {key};
      var outVal := CopyPlugin(c.value[key]);
      out.value := out.value[key := outVal];
    }
  }

  method CopyPlugins(c: Cell?<PluginMap>) returns (out: Cell?<PluginMap>)
    ensures fresh(PluginsReach(out)) && PluginsValue(out) == old(PluginsValue(c))
  {
    if c == null {
      return null;
    }
    out := CopyEntries(c);
    hide PluginText;
    assert (map k | k in out.value :: PluginText(out.value[k])) == old(map k | k in c.value :: PluginText(c.value[k]));
  }

  method CopyNames(n: Names, ghost v: Profile) returns (out: Names)
    ensures fresh(NamesReach(out)) && allocated(NamesReach(out)) && WithNames(out, v) == old(WithNames(n, v))
  {
    hide Deref, Ref;
    var name := CopyCell(n.name);
    var iface := CopyCell(n.iface);
    out := Names(name, iface);
  }

  method CopyOpts(o: Opts, ghost v: Profile) returns (out: Opts)
    ensures fresh(OptsReach(out)) && allocated(OptsReach(out)) && WithOpts(out, v) == old(WithOpts(o, v))
  {
    hide Deref, Ref;
    var ptp4l := CopyCell(o.ptp4l);
    var phc2sys := CopyCell(o.phc2sys);
    var ts2phc := CopyCell(o.ts2phc);
    var synce4l := CopyCell(o.synce4l);
    out := Opts(ptp4l, phc2sys, ts2phc, synce4l);
  }

  method CopyConfs(c: Confs, ghost v: Profile) returns (out: Confs)
    ensures fresh(ConfsReach(out)) && allocated(ConfsReach(out)) && WithConfs(out, v) == old(WithConfs(c, v))
  {
    hide Deref, Ref;
    var ptp4l := CopyCell(c.ptp4l);
    var phc2sys := CopyCell(c.phc2sys);
    var ts2phc := CopyCell(c.ts2phc);
    var synce4l := CopyCell(c.synce4l);
    out := Confs(ptp4l, phc2sys, ts2phc, synce4l);
  }

  /** The `PtpSettings` loop of `PtpProfile.DeepCopyInto`. */
  method CopySettings(c: Cell?<map<string, string>>) returns (out: Cell?<map<string, string>>)
    ensures fresh(Ref(out)) && allocated(Ref(out)) && Deref(out) == old(Deref(c))
  {
    if c == null {
      return null;
    }
    out := new Cell(map[]);
    var left := c.value.Keys;
    while left != {}
      invariant left <= c.value.Keys && c.value == old(c.value)
      invariant out.value == map k | k in c.value && k !in left :: c.value[k]
      decreases left
    {
      var key :| key in left;
      left := left - {key};
      out.value := out.value[key := c.value[key]];
    }
    assert out.value == c.value;
  }

  method CopyTuning(t: Tuning, ghost v: Profile) returns (out: Tuning)
    ensures fresh(TuningReach(out)) && allocated(TuningReach(out)) && WithTuning(out, v) == old(WithTuning(t, v))
  {
    hide Deref, Ref;
    var schedulingPolicy := CopyCell(t.schedulingPolicy);
    var schedulingPriority := CopyCell(t.schedulingPriority);
    var clockThreshold := CopyCell(t.clockThreshold);
    var settings := CopySettings(t.settings);
    out := Tuning(schedulingPolicy, schedulingPriority, clockThreshold, settings);
  }

  method CopyTexts(t: Texts) returns (out: Texts)
    ensures fresh(TextsReach(out)) && allocated(TextsReach(out)) && TextsValue(out) == old(TextsValue(t))
  {
    assert allocated(OptsReach(t.opts)) && allocated(ConfsReach(t.confs));
    hide Ref, Deref, NamesReach, OptsReach, ConfsReach, WithNames, WithOpts, WithConfs;
    ghost var v1 := WithNames(t.names, BLANK);
    ghost var v2 := WithOpts(t.opts, v1);
    ghost var v3 := WithConfs(t.confs, v2);
    var names := CopyNames(t.names, BLANK);
    assert WithOpts(t.opts, v1) == v2 && WithConfs(t.confs, v2) == v3;
    var opts := CopyOpts(t.opts, v1);
    assert WithNames(names, BLANK) == v1 && WithConfs(t.confs, v2) == v3;
    var confs := CopyConfs(t.confs, v2);
    assert WithNames(names, BLANK) == v1 && WithOpts(opts, v1) == v2;
    out := Texts(names, opts, confs);
  }

  method CopyPointers(p: Pointers) returns (out: Pointers)
    ensures fresh(PointersReach(out)) && allocated(PointersReach(out)) && PointersValue(out) == old(PointersValue(p))
  {
    assert allocated(TuningReach(p.tuning));
    hide Ref, Deref, TextsReach, TuningReach, TextsValue, WithTuning;
    ghost var v1 := TextsValue(p.texts);
    ghost var v2 := WithTuning(p.tuning, v1);
    var texts := CopyTexts(p.texts);
    assert WithTuning(p.tuning, v1) == v2;
    var tuning := CopyTuning(p.tuning, v1);
    assert TextsValue(texts) == v1;
    out := Pointers(texts, tuning);
  }

  /** `PtpProfile.DeepCopyInto`. */
  method CopyProfile(p: ProfileStruct) returns (out: ProfileStruct)
    ensures fresh(ProfileReach(out)) && ProfileValue(out) == old(ProfileValue(p))
  {
    assert allocated(PluginsReach(p.plugins));
    hide Ref, Deref, PluginEntries, PluginNodes, PluginRaws, PluginsReach, PluginsValue, PointersReach, PointersValue;
    ghost var v1, v2 := PointersValue(p.pointers), PluginsValue(p.plugins);
    var pointers := CopyPointers(p.pointers);
    assert PluginsValue(p.plugins) == v2;
    var plugins := CopyPlugins(p.plugins);
    assert PointersValue(pointers) == v1;
    out := ProfileStruct(pointers, plugins);
  }

  lemma NoProfiles()
    ensures ProfilesReach([]) == {} && ProfilesValue([]) == [] && PluginMaps([]) == {} && PluginCells([]) == {}
  {
  }

  lemma OneMoreProfile(s: seq<ProfileStruct>, p: ProfileStruct)
    ensures ProfilesReach(s + [p]) == ProfilesReach(s) + ProfileReach(p)
    ensures ProfilesValue(s + [p]) == ProfilesValue(s) + [ProfileValue(p)]
  {
    hide ProfileReach, ProfileValue;
    forall o | o in ProfilesReach(s) + ProfileReach(p) ensures o in ProfilesReach(s + [p]) {
      if o in ProfileReach(p) {
        assert (s + [p])[|s|] == p;
      } else {
        var i :| 0 <= i < |s| && o in ProfileReach(s[i]);
        assert (s + [p])[i] == s[i];
      }
    }
  }

  /** The `Profile` loop of `PtpConfigSpec.DeepCopyInto`. */
  method CopyProfiles(src: array<ProfileStruct>) returns (dst: array<ProfileStruct>)
    ensures fresh(dst) && fresh(ProfilesReach(dst[..])) && dst !in ProfilesReach(dst[..])
    ensures ProfilesValue(dst[..]) == old(ProfilesValue(src[..]))
  {
    hide ProfileReach, ProfileValue, ProfilesReach, ProfilesValue, PluginMaps, PluginCells, PluginNodes;
    ghost var wanted, copies: seq<ProfileStruct> := ProfilesValue(src[..]), [];
    dst := new ProfileStruct[src.Length](_ => NIL_PROFILE);
    NoProfiles();
    for i := 0 to src.Length
      invariant |copies| == i && dst[..i] == copies
      invariant fresh(ProfilesReach(copies)) && dst !in ProfilesReach(copies)
      invariant ProfilesValue(copies) == wanted[..i]
    {
      assert old(allocated(ProfilesReach(src[..]))) && src[..] == old(src[..]);
      assert ProfilesValue(src[..]) == wanted;
      assert ProfileValue(src[i]) == wanted[i];
      label before:
      assert allocated(ProfilesReach(copies));
      var out := CopyProfile(src[i]);
      assert ProfilesReach(copies) == old@before(ProfilesReach(copies));
      assert ProfilesValue(copies) == wanted[..i];
      OneMoreProfile(copies, out);
      copies := copies + [out];
      dst[i] := out;
    }
    assert dst[..] == copies;
  }

  // ----- the whole config -----

  /** A slice of profiles, possibly nil. */
  ghost function ProfileSliceReach(a: array?<ProfileStruct>): (reach: set<object>)
    reads a, if a == null then {} else PluginMaps(a[..]), if a == null then {} else PluginCells(a[..])
    ensures a != null ==> a in reach && ProfilesReach(a[..]) <= reach
  {
    Ref(a) + if a == null then {} else ProfilesReach(a[..])
  }

  ghost function ProfileSliceValue(a: array?<ProfileStruct>): seq<Profile>
    reads a, if a == null then {} else PluginMaps(a[..]), if a == null then {} else PluginCells(a[..]),
      if a == null then {} else ProfilesReach(a[..])
  {
    if a == null then [] else ProfilesValue(a[..])
  }

  ghost function RecommendSliceReach(a: array?<RecommendStruct>): (reach: set<object>)
    reads a, if a == null then {} else RuleArrays(a[..])
    ensures a != null ==> a in reach && RecommendsReach(a[..]) <= reach
  {
    Ref(a) + if a == null then {} else RecommendsReach(a[..])
  }

  ghost function RecommendSliceValue(a: array?<RecommendStruct>): seq<PtpRecommend>
    reads a, if a == null then {} else RuleArrays(a[..]) + RecommendsReach(a[..])
  {
    if a == null then [] else RecommendsValue(a[..])
  }

  ghost function ConfigReach(c: PtpConfigObject): set<object>
    reads *
  {
    {c} + ProfileSliceReach(c.profiles) + RecommendSliceReach(c.recommends)
  }

  ghost function ConfigValue(c: PtpConfigObject): PtpConfig
    reads *
  {
    PtpConfig(c.namespace, c.name, ProfileSliceValue(c.profiles), RecommendSliceValue(c.recommends))
  }

  lemma ConfigFields(c: PtpConfigObject)
    ensures var v := ConfigValue(c);
            && v.namespace == c.namespace && v.name == c.name
            && |v.profiles| == (if c.profiles == null then 0 else c.profiles.Length)
            && (forall i :: 0 <= i < |v.profiles| ==> v.profiles[i] == ProfileValue(c.profiles[i]))
            && |v.recommends| == (if c.recommends == null then 0 else c.recommends.Length)
            && (forall i :: 0 <= i < |v.recommends| ==> v.recommends[i] == RecommendValue(c.recommends[i]))
    ensures var reach := ConfigReach(c);
            && c in reach && Ref(c.profiles) <= reach && Ref(c.recommends) <= reach
            && (c.profiles != null ==> forall i :: 0 <= i < c.profiles.Length ==> ProfileReach(c.profiles[i]) <= reach)
            && (c.recommends != null ==>
                  forall i :: 0 <= i < c.recommends.Length ==> RecommendReach(c.recommends[i]) <= reach)
  {
    hide ProfileReach, ProfileValue, RecommendReach, RecommendValue;
    if c.profiles != null {
      forall i | 0 <= i < c.profiles.Length ensures ProfileReach(c.profiles[i]) <= ConfigReach(c) {
        assert c.profiles[..][i] == c.profiles[i];
        assert ProfileReach(c.profiles[..][i]) <= ProfilesReach(c.profiles[..]);
      }
    }
    if c.recommends != null {
      forall i | 0 <= i < c.recommends.Length ensures RecommendReach(c.recommends[i]) <= ConfigReach(c) {
        assert c.recommends[..][i] == c.recommends[i];
        assert RecommendReach(c.recommends[..][i]) <= RecommendsReach(c.recommends[..]);
      }
    }
  }

  /** The parts of the config that can be written to are all different. */
  ghost predicate Separate(c: PtpConfigObject)
    reads *
  {
    && (c.recommends != null ==> SeparateRules(c.recommends[..]) && c.recommends !in RecommendsReach(c.recommends[..]))
    && (c.profiles != null ==> c.profiles !in ProfilesReach(c.profiles[..]))
    && ProfileSliceReach(c.profiles) !! RecommendSliceReach(c.recommends)
    && c !in ProfileSliceReach(c.profiles) && c !in RecommendSliceReach(c.recommends)
  }

  method CopyProfileSlice(a: array?<ProfileStruct>) returns (out: array?<ProfileStruct>)
    ensures fresh(ProfileSliceReach(out)) && ProfileSliceValue(out) == old(ProfileSliceValue(a))
    ensures out != null ==> out !in ProfilesReach(out[..])
  {
    hide ProfilesReach, ProfilesValue;
    out := null;
    if a != null {
      out := CopyProfiles(a);
    }
  }

  method CopyRecommendSlice(a: array?<RecommendStruct>) returns (out: array?<RecommendStruct>)
    ensures fresh(RecommendSliceReach(out)) && RecommendSliceValue(out) == old(RecommendSliceValue(a))
    ensures out != null ==> SeparateRules(out[..]) && out !in RecommendsReach(out[..])
  {
    hide RecommendsReach, RecommendsValue, SeparateRules;
    out := null;
    if a != null {
      out := CopyRecommends(a);
    }
  }

  /** `PtpConfigSpec.DeepCopyInto`. */
  method CopySpec(profiles: array?<ProfileStruct>, recommends: array?<RecommendStruct>)
    returns (profiles': array?<ProfileStruct>, recommends': array?<RecommendStruct>)
    ensures fresh(ProfileSliceReach(profiles')) && fresh(RecommendSliceReach(recommends'))
    ensures ProfileSliceReach(profiles') !! RecommendSliceReach(recommends')
    ensures ProfileSliceValue(profiles') == old(ProfileSliceValue(profiles))
    ensures RecommendSliceValue(recommends') == old(RecommendSliceValue(recommends))
    ensures profiles' != null ==> profiles' !in ProfilesReach(profiles'[..])
    ensures recommends' != null ==> SeparateRules(recommends'[..]) && recommends' !in RecommendsReach(recommends'[..])
  {
    hide ProfileSliceReach, ProfileSliceValue, RecommendSliceReach, RecommendSliceValue, SeparateRules, RecommendsReach,
      ProfilesReach, PluginMaps, PluginCells, RuleArrays;
    assert allocated(RecommendSliceReach(recommends));
    ghost var v1, v2 := ProfileSliceValue(profiles), RecommendSliceValue(recommends);
    profiles' := CopyProfileSlice(profiles);
    assert RecommendSliceValue(recommends) == v2;
    assert allocated(ProfileSliceReach(profiles'));
    label copied:
    recommends' := CopyRecommendSlice(recommends);
    assert ProfileSliceReach(profiles') == old@copied(ProfileSliceReach(profiles'));
    assert ProfileSliceValue(profiles') == v1;
  }

  /** `PtpConfig.DeepCopy`: an equal value of which no part is shared with anything. */
  method DeepCopyConfig(c: PtpConfigObject) returns (out: PtpConfigObject)
    ensures fresh(ConfigReach(out))
    ensures ConfigValue(out) == old(ConfigValue(c))
    ensures Separate(out)
  {
    hide ProfileSliceReach, ProfileSliceValue, RecommendSliceReach, RecommendSliceValue, SeparateRules, RecommendsReach,
      ProfilesReach, PluginMaps, PluginCells, RuleArrays;
    var profiles, recommends := CopySpec(c.profiles, c.recommends);
    ghost var v1, v2 := ProfileSliceValue(profiles), RecommendSliceValue(recommends);
    assert allocated(ProfileSliceReach(profiles)) && allocated(RecommendSliceReach(recommends));
    label copied:
    out := new PtpConfigObject(c.namespace, c.name, profiles, recommends);
    assert ProfileSliceReach(profiles) == old@copied(ProfileSliceReach(profiles)) && ProfileSliceValue(profiles) == v1;
    assert RecommendSliceReach(recommends) == old@copied(RecommendSliceReach(recommends));
    assert RecommendSliceValue(recommends) == v2;
  }

  // ----- `MutateProfile` -----

  function Renamed(p: ProfileStruct, name: Cell<string>): ProfileStruct {
    p.(pointers := p.pointers.(texts := p.pointers.texts.(names := p.pointers.texts.names.(name := name))))
  }

  lemma RenamedValue(p: ProfileStruct, name: Cell<string>)
    ensures ProfileValue(Renamed(p, name)) == ProfileValue(p).(name := Some(name.value))
    ensures ProfileReach(Renamed(p, name)) <= ProfileReach(p) + {name}
  {
  }

  lemma ReplacedProfile(s: seq<ProfileStruct>, p: ProfileStruct)
    requires |s| > 0
    ensures ProfilesValue(s[0 := p]) == ProfilesValue(s)[0 := ProfileValue(p)]
    ensures ProfilesReach(s[0 := p]) <= ProfilesReach(s) + ProfileReach(p)
    ensures ProfileReach(s[0]) <= ProfilesReach(s)
  {
    hide ProfileReach, ProfileValue;
    forall i | 0 <= i < |s|
      ensures ProfilesValue(s[0 := p])[i] == if i == 0 then ProfileValue(p) else ProfilesValue(s)[i]
    {
    }
  }

  /** `Spec.Profile[0].Name = name`. */
  method RenameFirst(profiles: array<ProfileStruct>, name: Cell<string>)
    requires profiles.Length > 0 && profiles !in ProfilesReach(profiles[..])
    modifies profiles
    ensures ProfilesValue(profiles[..])
            == old(ProfilesValue(profiles[..])[0 := ProfileValue(profiles[0]).(name := Some(name.value))])
    ensures ProfilesReach(profiles[..]) <= old(ProfilesReach(profiles[..])) + {name}
  {
    hide ProfileReach, ProfileValue, ProfilesReach, ProfilesValue, PluginCells, Renamed;
    ghost var s := profiles[..];
    var p := Renamed(profiles[0], name);
    RenamedValue(s[0], name);
    ReplacedProfile(s, p);
    assert ProfilesReach(s[0 := p]) <= ProfilesReach(s) + {name};
    assert profiles as object != name;
    profiles[0] := p;
    assert profiles[..] == s[0 := p];
  }

  lemma ReplacedRecommend(s: seq<RecommendStruct>, r: RecommendStruct)
    requires |s| > 0
    ensures RecommendsValue(s[0 := r]) == RecommendsValue(s)[0 := RecommendValue(r)]
    ensures RecommendsReach(s[0 := r]) <= RecommendsReach(s) + RecommendReach(r)
    ensures RecommendReach(s[0]) <= RecommendsReach(s)
  {
  }

  lemma PointedRecommend(r: RecommendStruct, profile: Cell<string>, priority: Cell<Int64>)
    ensures var q := r.(profile := profile, priority := priority);
            && RecommendValue(q) == RecommendValue(r).(profile := Some(profile.value), priority := Some(priority.value))
            && RecommendReach(q) <= RecommendReach(r) + {profile, priority}
  {
  }

  /** `Spec.Recommend[0].Profile` and `.Priority`. */
  method PointFirst(recommends: array<RecommendStruct>, profile: Cell<string>, priority: Cell<Int64>)
    requires recommends.Length > 0 && recommends !in RecommendsReach(recommends[..])
    modifies recommends
    ensures recommends[0].rules == old(recommends[0].rules)
    ensures forall i :: 1 <= i < recommends.Length ==> recommends[i] == old(recommends[i])
    ensures RecommendsValue(recommends[..])
            == old(var v := RecommendsValue(recommends[..]);
                   v[0 := v[0].(profile := Some(profile.value), priority := Some(priority.value))])
    ensures RecommendsReach(recommends[..]) <= old(RecommendsReach(recommends[..])) + {profile} + {priority}
  {
    hide RecommendReach, RecommendValue, RecommendsReach, RecommendsValue, RuleArrays;
    ghost var s := recommends[..];
    var r := recommends[0].(profile := profile, priority := priority);
    PointedRecommend(s[0], profile, priority);
    ReplacedRecommend(s, r);
    assert RecommendsReach(s[0 := r]) <= RecommendsReach(s) + {profile, priority};
    assert recommends as object != profile && recommends as object != priority;
    recommends[0] := r;
    assert recommends[..] == s[0 := r];
  }

  lemma ReplacedRule(s: seq<RuleStruct>, r: RuleStruct)
    requires |s| > 0
    ensures RulesValue(s[0 := r]) == RulesValue(s)[0 := RuleValue(r)]
    ensures RulesReach(s[0 := r]) <= RulesReach(s) + RuleReach(r)
  {
  }

  lemma ForeignRules(r: RecommendStruct, a: array<RuleStruct>)
    requires r.rules != a
    ensures a !in RecommendReach(r)
  {
  }

  /** A slice of rules whose first one now names the node. */
  method RetargetRule(rules: array<RuleStruct>, nodeName: Cell<string>)
    requires rules.Length > 0
    modifies rules
    ensures RulesValue(rules[..]) == old(RulesValue(rules[..])[0 := MatchRule(None, Some(nodeName.value))])
    ensures RulesReach(rules[..]) <= old(RulesReach(rules[..])) + {nodeName}
  {
    ghost var s, r := rules[..], RuleStruct(null, nodeName);
    ReplacedRule(s, r);
    assert RuleReach(r) == {nodeName} && RuleValue(r) == MatchRule(None, Some(nodeName.value));
    assert rules !in RulesReach(s[0 := r]);
    hide RulesReach, RulesValue, RuleReach, RuleValue;
    rules[0] := rules[0].(nodeLabel := null);
    rules[0] := rules[0].(nodeName := nodeName);
    assert rules[..] == s[0 := r];
  }

  function Retarget(r: PtpRecommend, nodeName: string): PtpRecommend
    requires |r.rules| > 0
  {
    r.(rules := r.rules[0 := MatchRule(None, Some(nodeName))])
  }

  /** `Spec.Recommend[0].Match[0]`. */
  method RetargetFirst(recommends: array<RecommendStruct>, nodeName: Cell<string>)
    requires recommends.Length > 0 && recommends[0].rules != null && recommends[0].rules.Length > 0
    requires SeparateRules(recommends[..])
    modifies recommends[0].rules
    ensures RecommendsValue(recommends[..])
            == old(RecommendsValue(recommends[..])[0 := Retarget(RecommendValue(recommends[0]), nodeName.value)])
    ensures recommends[..] == old(recommends[..])
    ensures RecommendsReach(recommends[..]) <= old(RecommendsReach(recommends[..])) + {nodeName}
  {
    ghost var s, rules := recommends[..], recommends[0].rules;
    forall i | 1 <= i < |s| ensures rules !in RecommendReach(s[i]) {
      ForeignRules(s[i], rules);
    }
    hide RuleReach, RuleValue, RulesReach, RulesValue;
    RetargetRule(recommends[0].rules, nodeName);
    forall i | 1 <= i < |s|
      ensures RecommendValue(s[i]) == old(RecommendValue(s[i])) && RecommendReach(s[i]) == old(RecommendReach(s[i]))
    {
    }
    assert RecommendValue(s[0]) == old(Retarget(RecommendValue(s[0]), nodeName.value));
    assert RecommendReach(s[0]) <= old(RecommendReach(s[0])) + {nodeName};
    hide RecommendReach, RecommendValue;
  }

  lemma FirstEntry(s: seq<RecommendStruct>)
    requires |s| > 0
    ensures var r := RecommendsValue(s)[0];
            && r == RecommendValue(s[0])
            && |r.rules| == (if s[0].rules == null then 0 else s[0].rules.Length)
            && (s[0].rules != null ==> s[0].rules in RuleArrays(s))
  {
  }

  function Redirected(r: PtpRecommend, name: string, priority: Int64, nodeName: string): PtpRecommend
    requires |r.rules| > 0
  {
    PtpRecommend(Some(name), Some(priority), r.rules[0 := MatchRule(None, Some(nodeName))])
  }

  /** The edits of `Spec.Recommend[0]`. */
  method RedirectFirst(recommends: array<RecommendStruct>, name: Cell<string>, priority: Cell<Int64>,
                       nodeName: Cell<string>)
    requires recommends.Length > 0 && recommends[0].rules != null && recommends[0].rules.Length > 0
    requires SeparateRules(recommends[..]) && recommends !in RecommendsReach(recommends[..])
    modifies recommends, recommends[0].rules
    ensures RecommendsValue(recommends[..])
            == old(RecommendsValue(recommends[..])[0 := Redirected(RecommendValue(recommends[0]), name.value,
                                                                   priority.value, nodeName.value)])
    ensures RecommendsReach(recommends[..])
            <= old(RecommendsReach(recommends[..])) + {name} + {priority} + {nodeName}
  {
    assert recommends as object != name && recommends as object != priority && recommends as object != nodeName;
    hide RecommendReach, RecommendsReach, RecommendsValue, RuleArrays, RulesReach, RulesValue, Deref, Ref,
      SeparateRules;
    RetargetFirst(recommends, nodeName);
    PointFirst(recommends, name, priority);
  }

  /** The edits of a slice of entries; it panics if there is no entry, or no rule in the first one. */
  method RedirectSlice(recommends: array<RecommendStruct>, name: Cell<string>, priority: Cell<Int64>,
                       nodeName: Cell<string>)
    returns (ok: bool)
    requires SeparateRules(recommends[..]) && recommends !in RecommendsReach(recommends[..])
    modifies recommends, RuleArrays(recommends[..])
    ensures var v := old(RecommendsValue(recommends[..]));
            && (ok <==> |v| > 0 && |v[0].rules| > 0)
            && (ok ==> RecommendsValue(recommends[..])
                       == v[0 := Redirected(v[0], name.value, priority.value, nodeName.value)])
    ensures RecommendsReach(recommends[..])
            <= old(RecommendsReach(recommends[..])) + {name} + {priority} + {nodeName}
  {
    hide RecommendReach, RecommendValue, RecommendsReach, RecommendsValue, RuleArrays, RulesReach, RulesValue, Deref,
      Ref, SeparateRules;
    if recommends.Length == 0 {
      return false;
    }
    FirstEntry(recommends[..]);
    if recommends[0].rules == null || recommends[0].rules.Length == 0 {
      return false;
    }
    RedirectFirst(recommends, name, priority, nodeName);
    return true;
  }

  /** The edits outside `Spec.Recommend`, as far as they get. */
  method EditProfiles(c: PtpConfigObject, name: Cell<string>) returns (ok: bool)
    requires Separate(c)
    modifies c`namespace, c`name, c.profiles
    ensures c.namespace == Preemption.DAEMON_NAMESPACE && c.name == Preemption.TEMP_POLICY_NAME
    ensures var v := old(ProfileSliceValue(c.profiles));
            && (ok <==> |v| > 0)
            && (ok ==> ProfileSliceValue(c.profiles) == v[0 := v[0].(name := Some(name.value))])
    ensures ProfileSliceReach(c.profiles) <= old(ProfileSliceReach(c.profiles)) + {name}
  {
    hide ProfilesReach, ProfilesValue, PluginCells, RecommendSliceReach;
    assert allocated(ProfileSliceReach(c.profiles));
    c.namespace := Preemption.DAEMON_NAMESPACE;
    c.name := Preemption.TEMP_POLICY_NAME;
    assert ProfileSliceValue(c.profiles) == old(ProfileSliceValue(c.profiles));
    assert ProfileSliceReach(c.profiles) == old(ProfileSliceReach(c.profiles));
    if c.profiles == null || c.profiles.Length == 0 {
      return false;
    }
    RenameFirst(c.profiles, name);
    return true;
  }

  /** The edits of `Spec.Recommend`, as far as they get. */
  method EditRecommends(recommends: array?<RecommendStruct>, name: Cell<string>, priority: Cell<Int64>,
                        nodeName: Cell<string>)
    returns (ok: bool)
    requires recommends != null ==> SeparateRules(recommends[..]) && recommends !in RecommendsReach(recommends[..])
    modifies RecommendSliceReach(recommends)
    ensures var v := old(RecommendSliceValue(recommends));
            && (ok <==> |v| > 0 && |v[0].rules| > 0)
            && (ok ==> RecommendSliceValue(recommends)
                       == v[0 := Redirected(v[0], name.value, priority.value, nodeName.value)])
    ensures RecommendSliceReach(recommends) <= old(RecommendSliceReach(recommends)) + {name} + {priority} + {nodeName}
  {
    hide RecommendsReach, RecommendsValue, RuleArrays, SeparateRules;
    if recommends == null {
      return false;
    }
    ok := RedirectSlice(recommends, name, priority, nodeName);
  }

  /** The edits that `MutateProfile` makes to its copy, as far as they get; the name is shared by profile and entry. */
  method Edit(c: PtpConfigObject, name: Cell<string>, priority: Cell<Int64>, nodeName: Cell<string>) returns (ok: bool)
    requires Separate(c) && priority.value == 0
    requires name !in ConfigReach(c) && priority !in ConfigReach(c) && nodeName !in ConfigReach(c)
    modifies ConfigReach(c)
    ensures ok <==> Preemption.Mutable(old(ConfigValue(c)))
    ensures ok ==> ConfigValue(c) == Preemption.Mutated(old(ConfigValue(c)), name.value, nodeName.value)
    ensures ConfigReach(c) <= old(ConfigReach(c)) + {name} + {priority} + {nodeName}
  {
    hide ProfilesReach, ProfilesValue, RecommendsReach, RecommendsValue, PluginCells, RuleArrays, SeparateRules,
      ProfileSliceReach, ProfileSliceValue, RecommendSliceReach, RecommendSliceValue;
    assert allocated(RecommendSliceReach(c.recommends));
    ok := EditProfiles(c, name);
    assert RecommendSliceReach(c.recommends) == old(RecommendSliceReach(c.recommends));
    assert RecommendSliceValue(c.recommends) == old(RecommendSliceValue(c.recommends));
    if !ok {
      return false;
    }
    assert allocated(ProfileSliceReach(c.profiles));
    label before:
    ok := EditRecommends(c.recommends, name, priority, nodeName);
    assert ProfileSliceReach(c.profiles) == old@before(ProfileSliceReach(c.profiles));
    assert ProfileSliceValue(c.profiles) == old@before(ProfileSliceValue(c.profiles));
  }

  method NewCells(profileName: string, nodeName: string)
    returns (name: Cell<string>, priority: Cell<Int64>, node: Cell<string>)
    ensures fresh(name) && fresh(priority) && fresh(node)
    ensures name.value == profileName && priority.value == 0 && node.value == nodeName
  {
    name := new Cell(profileName);
    priority := new Cell(0);
    node := new Cell(nodeName);
  }

  /**
   `MutateProfile`; nil stands for its index panic. It modifies nothing that existed before,
   the argument included, and what it returns shares nothing with it.
   */
  method MutateProfile(config: PtpConfigObject, profileName: string, nodeName: string) returns (r: PtpConfigObject?)
    ensures r == null <==> !Preemption.Mutable(old(ConfigValue(config)))
    ensures r != null ==> fresh(ConfigReach(r))
    ensures r != null ==> ConfigValue(r) == Preemption.Mutated(old(ConfigValue(config)), profileName, nodeName)
  {
    hide Preemption.Mutable, Preemption.Mutated, Separate, ProfileSliceReach, ProfileSliceValue,
      RecommendSliceReach, RecommendSliceValue;
    assert allocated(ProfileSliceReach(config.profiles)) && allocated(RecommendSliceReach(config.recommends));
    var name, priority, node := NewCells(profileName, nodeName);
    assert ConfigValue(config) == old(ConfigValue(config));
    hide ConfigReach, ConfigValue;
    var copy := DeepCopyConfig(config);
    var ok := Edit(copy, name, priority, node);
    r := if ok then copy else null;
  }
}

/** The admission check: `validate` in `api/v1/ptpconfig_webhook.go`. */
module Validation {
  import opened Prelude
  import opened PtpTypes
  import opened Ptp4lConf
  import opened Interfaces
  import HaProfiles
  import Text

  /** `strings.ToLower` on ASCII letters, which is all that comparing with `true` and `false` needs. */
  function ToLower(s: string): string {
    if s == [] then []
    else [if 'A' <= s[0] <= 'Z' then ((s[0] as int) + 32) as char else s[0]] + ToLower(s[1..])
  }

  predicate SectionAllowed(section: string, iface: string) {
    section == GLOBAL || section == "[" + iface + "]"
  }

  /** An own interface allows no section but `[global]` and its own. */
  ghost predicate SectionsAllowed(p: Profile) {
    p.iface.Some? && p.iface.value != "" ==>
      forall section :: section in ParsedSections(p.ptp4lConf) ==> SectionAllowed(section, p.iface.value)
  }

  predicate SchedulingAllowed(p: Profile) {
    p.schedulingPolicy == Some("SCHED_FIFO") ==> p.schedulingPriority.Some?
  }

  /** `compiles` stands for `regexp.Compile` succeeding. */
  predicate SettingAllowed(k: string, v: string, compiles: string -> bool) {
    if k == "stdoutFilter" then compiles(v)
    else if k == "logReduce" then ToLower(v) == "true" || ToLower(v) == "false"
    else if k == "haProfiles" then HaProfiles.Matches(v)
    else false
  }

  predicate SettingsAllowed(p: Profile, compiles: string -> bool) {
    p.settings.Some? ==> forall k :: k in p.settings.value ==> SettingAllowed(k, p.settings.value[k], compiles)
  }

  ghost predicate Admitted(p: Profile, compiles: string -> bool) {
    SectionsAllowed(p) && SchedulingAllowed(p) && SettingsAllowed(p, compiles)
  }

  lemma {:induction false} LoweredAt(s: string)
    ensures |ToLower(s)| == |s|
    ensures forall i :: 0 <= i < |s| ==>
              ToLower(s)[i] == if 'A' <= s[i] <= 'Z' then ((s[i] as int) + 32) as char else s[i]
  {
    if s != [] {
      LoweredAt(s[1..]);
    }
  }

  /** A truth value in any mixture of letters. */
  predicate IsTruthValue(v: string) {
    || (|v| == 4 && v[0] in "tT" && v[1] in "rR" && v[2] in "uU" && v[3] in "eE")
    || (|v| == 5 && v[0] in "fF" && v[1] in "aA" && v[2] in "lL" && v[3] in "sS" && v[4] in "eE")
  }

  lemma TruthValues(v: string)
    ensures ToLower(v) == "true" || ToLower(v) == "false" <==> IsTruthValue(v)
  {
    LoweredAt(v);
    var t, f := "true", "false";
    assert ToLower(v) == t <==> |v| == 4 && forall i :: 0 <= i < 4 ==> ToLower(v)[i] == t[i];
    assert ToLower(v) == f <==> |v| == 5 && forall i :: 0 <= i < 5 ==> ToLower(v)[i] == f[i];
  }

  /** What a profile has to fulfil to be admitted, in full. */
  lemma AdmittedIff(p: Profile, compiles: string -> bool)
    ensures Admitted(p, compiles) <==>
            && (p.iface.None? || p.iface.value == "" || forall section :: section in ParsedSections(p.ptp4lConf) ==>
                                                          section == "[global]" || section == "[" + p.iface.value + "]")
            && (p.schedulingPolicy == Some("SCHED_FIFO") ==> p.schedulingPriority.Some?)
            && (p.settings.Some? ==>
                  var settings := p.settings.value;
                  && settings.Keys <= {"stdoutFilter", "logReduce", "haProfiles"}
                  && ("stdoutFilter" in settings ==> compiles(settings["stdoutFilter"]))
                  && ("logReduce" in settings ==> IsTruthValue(settings["logReduce"]))
                  && ("haProfiles" in settings ==>
                        HaProfiles.Accepts(HaProfiles.ProfileRegex(), settings["haProfiles"])))
  {
    hide ParsedSections, ToLower, IsTruthValue, HaProfiles.Accepts, HaProfiles.Matches, HaProfiles.ProfileRegex;
    if p.settings.Some? {
      var settings := p.settings.value;
      if "logReduce" in settings {
        TruthValues(settings["logReduce"]);
      }
      if "haProfiles" in settings {
        HaProfiles.MatchesIsPattern(settings["haProfiles"]);
      }
    }
  }

  /** The section loop of `validate` for a non-empty interface. */
  method CheckSections(sections: Sections, iface: string) returns (ok: bool)
    ensures ok <==> forall section :: section in sections ==> SectionAllowed(section, iface)
  {
    var left := sections.Keys;
    while left != {}
      invariant left <= sections.Keys
      invariant forall s :: s in sections.Keys - left ==> SectionAllowed(s, iface)
      decreases left
    {
      var section :| section in left;
      left := left - {section};
      if section != "[global]" {
        if section != "[" + iface + "]" {
          return false;
        }
      }
    }
    return true;
  }

  /** The settings loop of `validate`. */
  method CheckSettings(settings: map<string, string>, compiles: string -> bool) returns (ok: bool)
    ensures ok <==> forall k :: k in settings ==> SettingAllowed(k, settings[k], compiles)
  {
    var left := settings.Keys;
    while left != {}
      invariant left <= settings.Keys
      invariant forall k :: k in settings.Keys - left ==> SettingAllowed(k, settings[k], compiles)
      decreases left
    {
      var k :| k in left;
      var v := settings[k];
      left := left - {k};
      if k == "stdoutFilter" {
        if !compiles(v) {
          return false;
        }
      } else if k == "logReduce" {
        v := ToLower(v);
        if v != "true" && v != "false" {
          return false;
        }
      } else if k == "haProfiles" {
        if !HaProfiles.Matches(v) {
          return false;
        }
      } else {
        return false;
      }
    }
    return true;
  }

  /** One round of the loop of `validate`. Parse errors are dropped. */
  method ValidateProfile(profile: Profile, compiles: string -> bool) returns (ok: bool)
    ensures ok <==> Admitted(profile, compiles)
  {
    var conf := new Ptp4lConfig();
    var _ := conf.Populate(profile.ptp4lConf, profile.ptp4lOpts);
    if profile.iface.Some? && profile.iface.value != "" {
      var allowed := CheckSections(conf.sections, profile.iface.value);
      if !allowed {
        return false;
      }
    }
    if profile.schedulingPolicy.Some? && profile.schedulingPolicy.value == "SCHED_FIFO" {
      if profile.schedulingPriority.None? {
        return false;
      }
    }
    if profile.settings.Some? {
      var allowed := CheckSettings(profile.settings.value, compiles);
      if !allowed {
        return false;
      }
    }
    return true;
  }

  /** `validate`: whether the object is admitted. */
  method Validate(config: PtpConfig, compiles: string -> bool) returns (ok: bool)
    ensures ok <==> forall p :: p in config.profiles ==> Admitted(p, compiles)
  {
    hide Admitted;
    for i := 0 to |config.profiles|
      invariant forall p :: p in config.profiles[..i] ==> Admitted(p, compiles)
    {
      var admitted := ValidateProfile(config.profiles[i], compiles);
      if !admitted {
        return false;
      }
    }
    return true;
  }

  /** A name that survives being bracketed, unbracketed and trimmed. */
  predicate PlainName(s: string) {
    '[' !in s && ']' !in s && Text.NoOuterBlank(s)
  }

  lemma PlainSection(x: string)
    requires PlainName(x)
    ensures InterfaceName("[" + x + "]") == x
  {
    hide Text.Remove, Text.Trim;
    Text.RemoveAppend("[" + x, "]", '[');
    Text.RemoveAppend("[", x, '[');
    Text.RemoveSpec(x, '[');
    Text.RemoveOne('[', '[');
    Text.RemoveOne(']', '[');
    assert "" + x + "]" == x + "]" && x + "" == x;
    assert Text.Remove("[" + x + "]", '[') == x + "]";
    Text.RemoveAppend(x, "]", ']');
    Text.RemoveSpec(x, ']');
    Text.RemoveOne(']', ']');
    Text.TrimKeepsPlain(x);
  }

  lemma AllowedResolves(section: string, x: string)
    requires SectionAllowed(section, x) && PlainName(x)
    ensures Resolve(InterfaceName(section), Some(x)) == [x]
  {
    PlainSection(x);
    PlainSection("global");
    assert GLOBAL == "[" + "global" + "]";
  }

  lemma OwnInterfaceOnly(sections: Sections, role: Role, order: seq<string>, x: string)
    requires forall section :: section in sections ==> SectionAllowed(section, x)
    requires PlainName(x) && Enumerates(order, sections.Keys)
    ensures forall y :: y in InterfacesIn(sections, Some(x), role, order) ==> y == x
  {
    hide InterfaceName, HasRole, Resolve, InterfacesIn, SectionAllowed;
    forall k | k in sections ensures Resolve(InterfaceName(k), Some(x)) == [x] {
      AllowedResolves(k, x);
    }
    forall y | y in InterfacesIn(sections, Some(x), role, order) ensures y == x {
      InterfacesMember(sections, Some(x), role, order, y);
    }
  }

  /**
   Once a profile that names a plain interface is admitted, that interface is the only one
   it can use, in either role, even if its text is malformed.
   */
  lemma AdmittedUsesOwnInterface(p: Profile, compiles: string -> bool, role: Role, order: seq<string>, x: string)
    requires Admitted(p, compiles) && p.iface == Some(x) && x != "" && PlainName(x)
    requires Enumerates(order, ParsedSections(p.ptp4lConf).Keys)
    ensures forall y :: y in InterfacesIn(ParsedSections(p.ptp4lConf), p.iface, role, order) ==> y == x
  {
    hide ParsedSections, InterfacesIn;
    OwnInterfaceOnly(ParsedSections(p.ptp4lConf), role, order, x);
  }
}

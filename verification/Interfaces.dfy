/** Interface extraction: `getInterfaces` and `GetInterfaces` in `api/v1/ptpconfig_webhook.go`. */
module Interfaces {
  import opened Prelude
  import opened PtpTypes
  import opened Ptp4lConf
  import Text

  /** `PtpRole`: `Slave` is 0 and `Master` is 1. */
  datatype Role = Slave | Master

  /** `strconv.Itoa` on a role. */
  function Digit(role: Role): string {
    match role
    case Slave => "0"
    case Master => "1"
  }

  const MASTER_ONLY := "masterOnly"

  function Unbracket(s: string): string {
    Text.Remove(Text.Remove(s, '['), ']')
  }

  /** The interface a section name stands for. */
  function InterfaceName(section: string): string {
    Text.Trim(Unbracket(section))
  }

  predicate HasRole(options: Options, role: Role) {
    MASTER_ONLY in options && Text.Trim(options[MASTER_ONLY]) == Digit(role)
  }

  /** `order` is one of the ways in which `range` may walk a map with these keys. */
  ghost predicate Enumerates(order: seq<string>, keys: set<string>) {
    && (forall k :: k in order <==> k in keys)
    && (forall i, j :: 0 <= i < j < |order| ==> order[i] != order[j])
  }

  /** The names `getInterfaces` collects when the sections are walked in this order. */
  function Collected(sections: Sections, order: seq<string>, role: Role): seq<string>
    requires forall k :: k in order ==> k in sections
  {
    if order == [] then []
    else
      var last := order[|order| - 1];
      Collected(sections, order[..|order| - 1], role)
          + (if HasRole(sections[last], role) then [InterfaceName(last)] else [])
  }

  /** `global` stands for the profile's own interface, if it has one. */
  function Resolve(name: string, iface: Option<string>): seq<string> {
    if name != "global" then [name] else if iface.Some? then [iface.value] else []
  }

  function ResolveAll(names: seq<string>, iface: Option<string>): seq<string> {
    if names == [] then []
    else ResolveAll(names[..|names| - 1], iface) + Resolve(names[|names| - 1], iface)
  }

  function FirstConf(config: PtpConfig): Option<string>
    requires |config.profiles| > 0
  {
    config.profiles[0].ptp4lConf
  }

  /** The result of `GetInterfaces` when these are the parsed sections and they are walked in this order. */
  function InterfacesIn(sections: Sections, iface: Option<string>, role: Role, order: seq<string>): seq<string>
    requires forall k :: k in order ==> k in sections
  {
    var names := Collected(sections, order, role);
    ResolveAll(names, iface) + (if names == [] && role == Slave && iface.Some? then [iface.value] else [])
  }

  // ----- the code -----

  lemma UnbracketTwice(s: string)
    ensures Text.Trim(Unbracket(InterfaceName(s))) == InterfaceName(s)
    ensures forall c :: c in InterfaceName(s) ==> c in s && c != '[' && c != ']'
  {
    var u, n := Unbracket(s), InterfaceName(s);
    Text.RemoveSpec(s, '[');
    Text.RemoveSpec(Text.Remove(s, '['), ']');
    Text.TrimTwice(u);
    Text.RemoveSpec(n, '[');
    Text.RemoveSpec(n, ']');
  }

  /** `getInterfaces`. */
  method GetInterfacesOf(input: Ptp4lConfig, role: Role) returns (interfaces: seq<string>, ghost order: seq<string>)
    ensures Enumerates(order, input.sections.Keys)
    ensures interfaces == Collected(input.sections, order, role)
    ensures forall x :: x in interfaces <==>
              exists k :: k in input.sections && HasRole(input.sections[k], role) && InterfaceName(k) == x
  {
    Text.TrimKeepsPlain("");
    hide Text.Remove, Text.Trim;
    interfaces, order := [], [];
    var sections := input.sections;
    var left := sections.Keys;
    while left != {}
      invariant left <= sections.Keys
      invariant Enumerates(order, sections.Keys - left)
      invariant interfaces == Collected(sections, order, role)
      decreases left
    {
      var index :| index in left;
      left := left - {index};
      assert (order + [index])[..|order|] == order;
      order := order + [index];
      var sectionName := Text.Trim(Text.Remove(Text.Remove(index, '['), ']'));
      var masterOnly := if MASTER_ONLY in sections[index] then sections[index][MASTER_ONLY] else "";
      if Text.Trim(masterOnly) == Digit(role) {
        UnbracketTwice(index);
        interfaces := interfaces + [Text.Trim(Text.Remove(Text.Remove(sectionName, '['), ']'))];
      }
    }
    forall x {
      CollectedMember(sections, order, role, x);
    }
  }

  /** `GetInterfaces`; the parse error is only logged. */
  method GetInterfaces(config: PtpConfig, role: Role) returns (finalInterfaces: seq<string>, ghost order: seq<string>)
    ensures |config.profiles| == 0 ==> finalInterfaces == []
    ensures |config.profiles| > 0 ==>
              && Enumerates(order, ParsedSections(FirstConf(config)).Keys)
              && finalInterfaces
                 == InterfacesIn(ParsedSections(FirstConf(config)), config.profiles[0].iface, role, order)
  {
    hide ParsedSections, ParsedError, Collected;
    finalInterfaces, order := [], [];
    if |config.profiles| == 0 {
      return;
    }
    var conf := new Ptp4lConfig();
    var err := conf.Populate(config.profiles[0].ptp4lConf, None);
    var interfaces: seq<string>;
    interfaces, order := GetInterfacesOf(conf, role);
    var iface := config.profiles[0].iface;
    for i := 0 to |interfaces|
      invariant finalInterfaces == ResolveAll(interfaces[..i], iface)
    {
      assert interfaces[..i + 1][..i] == interfaces[..i];
      if interfaces[i] == "global" {
        if iface.Some? {
          finalInterfaces := finalInterfaces + [iface.value];
        }
      } else {
        finalInterfaces := finalInterfaces + [interfaces[i]];
      }
    }
    assert interfaces[..|interfaces|] == interfaces;
    if |interfaces| == 0 && role == Slave && iface.Some? {
      finalInterfaces := finalInterfaces + [iface.value];
    }
  }

  // ----- laws -----

  /** A section has the role that its `masterOnly` spells, blanks around it aside. */
  lemma RoleSpelled(options: Options, left: string, digit: char, right: string)
    requires "masterOnly" in options && options["masterOnly"] == left + [digit] + right && '!' <= digit <= '~'
    requires forall c :: c in left || c in right ==> c in Text.BLANKS
    ensures HasRole(options, Master) <==> digit == '1'
    ensures HasRole(options, Slave) <==> digit == '0'
  {
    Text.TrimDropsBlanks(left, [digit], right);
  }

  lemma CollectedMember(sections: Sections, order: seq<string>, role: Role, name: string)
    requires forall k :: k in order ==> k in sections
    ensures name in Collected(sections, order, role)
            <==> exists k :: k in order && HasRole(sections[k], role) && InterfaceName(k) == name
  {
  }

  lemma {:induction false} ResolvedMember(names: seq<string>, iface: Option<string>, x: string)
    ensures x in ResolveAll(names, iface) <==> exists n :: n in names && x in Resolve(n, iface)
  {
    if names != [] {
      ResolvedMember(names[..|names| - 1], iface, x);
      assert names == names[..|names| - 1] + [names[|names| - 1]];
    }
  }

  /** Which names `GetInterfaces` returns, whatever the order of the walk. */
  lemma InterfacesMember(sections: Sections, iface: Option<string>, role: Role, order: seq<string>, x: string)
    requires Enumerates(order, sections.Keys)
    ensures x in InterfacesIn(sections, iface, role, order)
            <==> || (exists k :: k in sections && HasRole(sections[k], role) && x in Resolve(InterfaceName(k), iface))
                 || (role == Slave && iface == Some(x) && forall k :: k in sections ==> !HasRole(sections[k], role))
  {
    hide HasRole, InterfaceName, Resolve;
    var names := Collected(sections, order, role);
    forall n ensures n in names <==> exists k :: k in order && HasRole(sections[k], role) && InterfaceName(k) == n {
      CollectedMember(sections, order, role, n);
    }
    ResolvedMember(names, iface, x);
    forall k | k in sections && HasRole(sections[k], role) ensures InterfaceName(k) in names {}
    assert names == [] <==> forall k :: k in sections ==> !HasRole(sections[k], role) by {
      if names != [] {
        assert names[0] in names;
      }
    }
  }

  function PickOf(sections: Sections, role: Role): string -> seq<string> {
    (k: string) => if k in sections && HasRole(sections[k], role) then [InterfaceName(k)] else []
  }

  lemma {:induction false} CollectedIsFlatMap(sections: Sections, order: seq<string>, role: Role)
    requires forall k :: k in order ==> k in sections
    ensures Collected(sections, order, role) == FlatMap(PickOf(sections, role), order)
  {
    hide HasRole, InterfaceName;
    if order != [] {
      var init, last := order[..|order| - 1], order[|order| - 1];
      assert order == init + [last];
      CollectedIsFlatMap(sections, init, role);
      FlatMapAppend(PickOf(sections, role), init, [last]);
      FlatMapOne(PickOf(sections, role), last);
      hide FlatMap;
    }
  }

  function ResolveOf(iface: Option<string>): string -> seq<string> {
    (n: string) => Resolve(n, iface)
  }

  lemma {:induction false} ResolveAllIsFlatMap(names: seq<string>, iface: Option<string>)
    ensures ResolveAll(names, iface) == FlatMap(ResolveOf(iface), names)
  {
    if names != [] {
      var init, last := names[..|names| - 1], names[|names| - 1];
      ResolveAllIsFlatMap(init, iface);
      FlatMapAppend(ResolveOf(iface), init, [last]);
      FlatMapOne(ResolveOf(iface), last);
      assert names == init + [last];
    }
  }

  lemma {:induction false} EnumerationsPermute(order: seq<string>, order': seq<string>, keys: set<string>)
    requires Enumerates(order, keys) && Enumerates(order', keys)
    ensures multiset(order) == multiset(order')
  {
    forall o | Enumerates(o, keys) ensures multiset(o) == multiset(keys) {
      MultisetOfEnumeration(o, keys);
    }
  }

  lemma {:induction false} MultisetOfEnumeration(order: seq<string>, keys: set<string>)
    requires Enumerates(order, keys)
    ensures multiset(order) == multiset(keys)
  {
    if order == [] {
      assert keys == {};
    } else {
      var init, last := order[..|order| - 1], order[|order| - 1];
      assert order == init + [last];
      assert Enumerates(init, keys - {last});
      MultisetOfEnumeration(init, keys - {last});
      assert keys == (keys - {last}) + {last};
    }
  }

  /** The order of the walk only changes the order of the result. */
  lemma WalkOrderIsIrrelevant(sections: Sections, iface: Option<string>, role: Role, order: seq<string>,
                              order': seq<string>)
    requires Enumerates(order, sections.Keys) && Enumerates(order', sections.Keys)
    ensures multiset(InterfacesIn(sections, iface, role, order))
            == multiset(InterfacesIn(sections, iface, role, order'))
    ensures |InterfacesIn(sections, iface, role, order)| == |InterfacesIn(sections, iface, role, order')|
  {
    hide HasRole, InterfaceName, FlatMap, Resolve;
    EnumerationsPermute(order, order', sections.Keys);
    var names, names' := Collected(sections, order, role), Collected(sections, order', role);
    CollectedIsFlatMap(sections, order, role);
    CollectedIsFlatMap(sections, order', role);
    FlatMapPermutation(PickOf(sections, role), order, order');
    assert |names| == |multiset(names)| == |names'|;
    ResolveAllIsFlatMap(names, iface);
    ResolveAllIsFlatMap(names', iface);
    FlatMapPermutation(ResolveOf(iface), names, names');
    var r, r' := InterfacesIn(sections, iface, role, order), InterfacesIn(sections, iface, role, order');
    assert |r| == |multiset(r)| == |multiset(r')| == |r'|;
  }

  /** With no section in the slave role, the slave interface is the profile's own. */
  lemma SlaveFallsBack(sections: Sections, x: string, order: seq<string>)
    requires Enumerates(order, sections.Keys)
    requires forall k :: k in sections ==> !HasRole(sections[k], Slave)
    ensures InterfacesIn(sections, Some(x), Slave, order) == [x]
  {
    var names := Collected(sections, order, Slave);
    hide HasRole, InterfaceName;
    if names != [] {
      CollectedMember(sections, order, Slave, names[0]);
    }
    assert ResolveAll([], Some(x)) == [];
  }

  /**
   When no section asks for the slave role, the slave fallback hands out an interface that
   the master role already uses iff a master section stands for it or for `global`.
   */
  lemma FallbackRepeatsInterface(sections: Sections, x: string, order: seq<string>, order': seq<string>)
    requires Enumerates(order, sections.Keys) && Enumerates(order', sections.Keys)
    requires forall k :: k in sections ==> !HasRole(sections[k], Slave)
    ensures InterfacesIn(sections, Some(x), Slave, order) == [x]
    ensures x in InterfacesIn(sections, Some(x), Master, order') <==>
              exists k :: k in sections && HasRole(sections[k], Master) && InterfaceName(k) in {"global", x}
  {
    hide HasRole, InterfaceName, InterfacesIn, Enumerates;
    SlaveFallsBack(sections, x, order);
    InterfacesMember(sections, Some(x), Master, order', x);
    forall k ensures x in Resolve(InterfaceName(k), Some(x)) <==> InterfaceName(k) in {"global", x} {}
  }
}

/**
 The configuration text the conformance tests write (`test/pkg/testconfig/testconfig.go`), read back
 by the parser.
*/
module Printer {
  import opened Prelude
  import opened PtpTypes
  import opened Ptp4lConf
  import opened Interfaces
  import opened Validation
  import Text

  datatype Entry = Entry(name: string, role: Role)

  function SectionOf(iface: string): string {
    "[" + iface + "]"
  }

  function RoleLine(role: Role): string {
    MASTER_ONLY + " " + Digit(role)
  }

  /** `AddInterface`. */
  function AddInterface(ptpConfig: string, iface: string, role: Role): string {
    ptpConfig + "\n" + SectionOf(iface) + "\n" + RoleLine(role)
  }

  /** `AddInterface` for each entry in turn. */
  function AddAll(ptpConfig: string, entries: seq<Entry>): string {
    if entries == [] then ptpConfig
    else
      var last := entries[|entries| - 1];
      AddInterface(AddAll(ptpConfig, entries[..|entries| - 1]), last.name, last.role)
  }

  function RoleOptions(role: Role): Options {
    map[MASTER_ONLY := Digit(role)]
  }

  function UpdateAll(sections: Sections, entries: seq<Entry>): Sections {
    if entries == [] then sections
    else
      var last := entries[|entries| - 1];
      UpdateAll(sections, entries[..|entries| - 1])[SectionOf(last.name) := RoleOptions(last.role)]
  }

  /** The role asked for last. */
  function LastRole(entries: seq<Entry>, name: string): Option<Role> {
    if entries == [] then None
    else
      var last := entries[|entries| - 1];
      if last.name == name then Some(last.role) else LastRole(entries[..|entries| - 1], name)
  }

  const BASE_LINES := [
    "[global]",
    "tx_timestamp_timeout 50",
    "ptp_dst_mac 01:1B:19:00:00:00",
    "p2p_dst_mac 01:80:C2:00:00:0E",
    "domainNumber 24",
    "logging_level 7",
    ""
  ]

  /** `BasePtp4lConfig`. */
  function BasePtp4lConfig(): string {
    Text.Join(BASE_LINES, '\n')
  }

  /** What `CreatePtpConfigBC` starts from. */
  function BoundaryClockBase(): string {
    BasePtp4lConfig() + "\n" + "boundary_clock_jbod 1" + "\n" + "gmCapable 0"
  }

  // ----- one entry -----

  lemma ClassifySection(iface: string)
    requires ']' !in iface
    ensures Classify(SectionOf(iface)) == Header(SectionOf(iface))
  {
    var s := SectionOf(iface);
    assert s[..|iface| + 1] == "[" + iface;
    Text.IndexOfIs(s, ']', |iface| + 1);
  }

  lemma ClassifyRole(role: Role)
    ensures Classify(RoleLine(role)) == Assignment(MASTER_ONLY, Digit(role))
  {
    var s := RoleLine(role);
    assert s[..10] == MASTER_ONLY && s[11..] == Digit(role);
    Text.IndexOfIs(s, ' ', 10);
    assert Text.NoOuterBlank(Digit(role));
    Text.TrimKeepsPlain(Digit(role));
  }

  lemma AddedLines(c: string, iface: string, role: Role)
    requires '\n' !in iface
    ensures Text.Split(AddInterface(c, iface, role), '\n')
            == Text.Split(c, '\n') + [SectionOf(iface)] + [RoleLine(role)]
  {
    var section, roleLine := SectionOf(iface), RoleLine(role);
    assert '\n' !in section;
    assert '\n' !in roleLine;
    Text.SplitAppend(c + "\n" + section, roleLine, '\n');
    Text.SplitAppend(c, section, '\n');
    Text.SplitOne(section, '\n');
    Text.SplitOne(roleLine, '\n');
    assert AddInterface(c, iface, role) == c + "\n" + section + ['\n'] + roleLine;
  }

  lemma AddedClassified(c: string, iface: string, role: Role)
    requires '\n' !in iface && ']' !in iface
    ensures LinesOf(Some(AddInterface(c, iface, role)))
            == LinesOf(Some(c)) + [Header(SectionOf(iface))] + [Assignment(MASTER_ONLY, Digit(role))]
  {
    var texts, section, roleLine := Text.Split(c, '\n'), SectionOf(iface), RoleLine(role);
    AddedLines(c, iface, role);
    ClassifyOneMore(texts + [section], roleLine);
    ClassifyOneMore(texts, section);
    ClassifySection(iface);
    ClassifyRole(role);
  }

  lemma ClassifyOneMore(texts: seq<string>, text: string)
    ensures ClassifyAll(texts + [text]) == ClassifyAll(texts) + [Classify(text)]
  {
  }

  lemma ScanAdded(lines: seq<Line>, name: string, role: Role)
    requires ScanLines(lines).error.None? && name != ""
    ensures var s' := ScanLines(lines + [Header(name)] + [Assignment(MASTER_ONLY, Digit(role))]);
            s'.error.None? && s'.sections == ScanLines(lines).sections[name := RoleOptions(role)]
  {
  }

  /** Printing one more interface and parsing again sets exactly that interface's section. */
  lemma ParseAdded(c: string, iface: string, role: Role)
    requires ParsedError(Some(c)).None?
    requires '\n' !in iface && ']' !in iface
    ensures ParsedError(Some(AddInterface(c, iface, role))).None?
    ensures ParsedSections(Some(AddInterface(c, iface, role)))
            == ParsedSections(Some(c))[SectionOf(iface) := RoleOptions(role)]
  {
    AddedClassified(c, iface, role);
    ScanAdded(LinesOf(Some(c)), SectionOf(iface), role);
    GlobalLast(ScanLines(LinesOf(Some(c))).sections, SectionOf(iface), RoleOptions(role));
  }

  lemma GlobalLast(s: Sections, name: string, options: Options)
    ensures WithGlobal(s[name := options]) == WithGlobal(s)[name := options]
  {
  }

  // ----- all entries -----

  ghost predicate Printable(entries: seq<Entry>) {
    forall e :: e in entries ==> '\n' !in e.name && ']' !in e.name
  }

  /** The parser undoes the printer: the base sections, updated entry by entry. */
  lemma {:induction false} ParseAddedAll(c: string, entries: seq<Entry>)
    requires ParsedError(Some(c)).None? && Printable(entries)
    ensures ParsedError(Some(AddAll(c, entries))).None?
    ensures ParsedSections(Some(AddAll(c, entries))) == UpdateAll(ParsedSections(Some(c)), entries)
  {
    if entries != [] {
      var init, last := entries[..|entries| - 1], entries[|entries| - 1];
      ParseAddedAll(c, init);
      assert last in entries;
      ParseAdded(AddAll(c, init), last.name, last.role);
    }
  }

  lemma SectionOfIsInjective(a: string, b: string)
    ensures SectionOf(a) == SectionOf(b) <==> a == b
  {
    assert SectionOf(a)[1..|a| + 1] == a && SectionOf(b)[1..|b| + 1] == b;
  }

  lemma {:induction false} UpdatedSections(sections: Sections, entries: seq<Entry>, name: string)
    ensures LastRole(entries, name).Some? ==>
              SectionOf(name) in UpdateAll(sections, entries)
              && UpdateAll(sections, entries)[SectionOf(name)] == RoleOptions(LastRole(entries, name).value)
    ensures LastRole(entries, name).None? ==>
              if SectionOf(name) in sections
              then SectionOf(name) in UpdateAll(sections, entries)
                   && UpdateAll(sections, entries)[SectionOf(name)] == sections[SectionOf(name)]
              else SectionOf(name) !in UpdateAll(sections, entries)
  {
    if entries != [] {
      UpdatedSections(sections, entries[..|entries| - 1], name);
      SectionOfIsInjective(name, entries[|entries| - 1].name);
    }
  }

  lemma {:induction false} UpdatedKeys(sections: Sections, entries: seq<Entry>, k: string)
    requires k in UpdateAll(sections, entries)
    ensures k in sections || exists e :: e in entries && k == SectionOf(e.name)
  {
    if entries != [] {
      var init, last := entries[..|entries| - 1], entries[|entries| - 1];
      assert last in entries;
      if k != SectionOf(last.name) {
        UpdatedKeys(sections, init, k);
        if e :| e in init && k == SectionOf(e.name) {
          assert e in entries;
        }
      }
    }
  }

  /** Interface names the round trip is promised for. */
  ghost predicate WellFormed(entries: seq<Entry>) {
    forall e :: e in entries ==> PlainName(e.name) && '\n' !in e.name && e.name != "global"
  }

  /** A text with just the global section, and no role in it. */
  ghost predicate Neutral(c: string) {
    && ParsedError(Some(c)).None?
    && ParsedSections(Some(c)).Keys == {GLOBAL}
    && MASTER_ONLY !in ParsedSections(Some(c))[GLOBAL]
  }

  lemma RoleOfSection(c: string, entries: seq<Entry>, name: string, role: Role)
    requires Neutral(c) && WellFormed(entries) && name != "global"
    ensures var sections := UpdateAll(ParsedSections(Some(c)), entries);
            (SectionOf(name) in sections && HasRole(sections[SectionOf(name)], role)) <==>
                LastRole(entries, name) == Some(role)
  {
    hide Text.Trim, ParsedSections, ParsedError, UpdateAll, LastRole;
    UpdatedSections(ParsedSections(Some(c)), entries, name);
    SectionOfIsInjective(name, "global");
    assert GLOBAL == SectionOf("global");
    if LastRole(entries, name).Some? {
      var r := LastRole(entries, name).value;
      assert Text.NoOuterBlank(Digit(r));
      Text.TrimKeepsPlain(Digit(r));
    }
  }

  /** A section with a role is the section of an entry, and stands for that entry's name. */
  lemma SectionWithRole(c: string, entries: seq<Entry>, k: string, role: Role) returns (name: string)
    requires Neutral(c) && WellFormed(entries)
    requires k in UpdateAll(ParsedSections(Some(c)), entries)
    requires HasRole(UpdateAll(ParsedSections(Some(c)), entries)[k], role)
    ensures k == SectionOf(name) && InterfaceName(k) == name && name != "global"
            && LastRole(entries, name) == Some(role)
  {
    hide ParsedSections, ParsedError, UpdateAll;
    var base := ParsedSections(Some(c));
    UpdatedKeys(base, entries, k);
    if k in base {
      // only `[global]`, and no entry touches it
      assert k == SectionOf("global");
      UpdatedSections(base, entries, "global");
      NoGlobalRole(entries);
      assert false;
      name := "";
    } else {
      var e :| e in entries && k == SectionOf(e.name);
      name := e.name;
      PlainSection(name);
      RoleOfSection(c, entries, name, role);
    }
  }

  lemma {:induction false} NoGlobalRole(entries: seq<Entry>)
    requires WellFormed(entries)
    ensures LastRole(entries, "global") == None
  {
    if entries != [] {
      assert entries[|entries| - 1] in entries;
      NoGlobalRole(entries[..|entries| - 1]);
    }
  }

  ghost predicate NoDuplicates(names: seq<string>) {
    forall i, j :: 0 <= i < j < |names| ==> names[i] != names[j]
  }

  lemma {:induction false} CollectedOnce(sections: Sections, order: seq<string>, role: Role)
    requires forall k :: k in order ==> k in sections
    requires forall i, j :: 0 <= i < j < |order| ==> order[i] != order[j]
    requires forall k, l | k in order && l in order && HasRole(sections[k], role) && HasRole(sections[l], role) ::
               InterfaceName(k) == InterfaceName(l) ==> k == l
    ensures NoDuplicates(Collected(sections, order, role))
  {
    if order != [] {
      var init, last := order[..|order| - 1], order[|order| - 1];
      assert order == init + [last];
      CollectedOnce(sections, init, role);
      CollectedMember(sections, init, role, InterfaceName(last));
    }
  }

  lemma {:induction false} ResolveNothing(names: seq<string>)
    requires "global" !in names
    ensures ResolveAll(names, None) == names
  {
    if names != [] {
      ResolveNothing(names[..|names| - 1]);
    }
  }

  /**
   `GetInterfaces` on a printed text returns, for a profile without an own interface,
   exactly the names whose last role was asked for, each once.
   */
  lemma PrintedInterfaces(c: string, entries: seq<Entry>, role: Role, order: seq<string>)
    requires Neutral(c) && WellFormed(entries)
    requires Enumerates(order, ParsedSections(Some(AddAll(c, entries))).Keys)
    ensures var interfaces := InterfacesIn(ParsedSections(Some(AddAll(c, entries))), None, role, order);
            && (forall x :: x in interfaces <==> LastRole(entries, x) == Some(role))
            && NoDuplicates(interfaces)
  {
    ParseAddedAll(c, entries);
    var sections := UpdateAll(ParsedSections(Some(c)), entries);
    var names := Collected(sections, order, role);
    forall x ensures x in names <==> LastRole(entries, x) == Some(role) {
      CollectedMember(sections, order, role, x);
      if x in names {
        var k :| k in order && HasRole(sections[k], role) && InterfaceName(k) == x;
        var n := SectionWithRole(c, entries, k, role);
      }
      if LastRole(entries, x) == Some(role) {
        RoleNeedsEntry(entries, x);
        RoleOfSection(c, entries, x, role);
        PlainSection(x);
        assert SectionOf(x) in order;
      }
    }
    NoGlobalRole(entries);
    assert "global" !in names;
    ResolveNothing(names);
    forall k, l | k in order && l in order && HasRole(sections[k], role) && HasRole(sections[l], role)
      && InterfaceName(k) == InterfaceName(l) ensures k == l
    {
      var m := SectionWithRole(c, entries, k, role);
      var n := SectionWithRole(c, entries, l, role);
    }
    CollectedOnce(sections, order, role);
    assert InterfacesIn(sections, None, role, order) == names;
  }

  lemma {:induction false} RoleNeedsEntry(entries: seq<Entry>, name: string)
    requires LastRole(entries, name).Some? && WellFormed(entries)
    ensures PlainName(name) && name != "global"
  {
    assert entries[|entries| - 1] in entries;
    if entries[|entries| - 1].name != name {
      RoleNeedsEntry(entries[..|entries| - 1], name);
    }
  }

  // ----- the texts the tests start from -----

  /** A line that is neither a header nor an assignment of a role. */
  predicate Harmless(text: string) {
    '\n' !in text && (text == "" || (text[0] != '[' && text[0] != 'm'))
  }

  predicate Quiet(line: Line) {
    line.Other? || (line.Assignment? && line.key != MASTER_ONLY)
  }

  lemma {:induction false} QuietScan(lines: seq<Line>)
    requires |lines| > 0 && lines[0] == Header(GLOBAL)
    requires forall i :: 1 <= i < |lines| ==> Quiet(lines[i])
    ensures var s := ScanLines(lines);
            s.error.None? && s.current == GLOBAL && s.sections.Keys == {GLOBAL} && MASTER_ONLY !in s.sections[GLOBAL]
  {
    var init := lines[..|lines| - 1];
    if |lines| == 1 {
      assert ScanLines(init) == Scan("", map[], None);
    } else {
      QuietScan(init);
    }
  }

  lemma HarmlessText(c: string, texts: seq<string>)
    requires GlobalOnly(c, texts)
    ensures Neutral(c)
  {
    var lines := LinesOf(Some(c));
    ClassifiedOneByOne(texts);
    forall i | 1 <= i < |lines| ensures Quiet(lines[i]) {
      assert texts[i] == texts[1..][i - 1];
      HarmlessLine(texts[i]);
    }
    ClassifySection("global");
    assert GLOBAL == SectionOf("global");
    QuietScan(lines);
  }

  lemma HarmlessLine(text: string)
    requires Harmless(text)
    ensures Quiet(Classify(text))
  {
  }

  lemma HarmlessIsOneLine(text: string)
    requires Harmless(text)
    ensures '\n' !in text
  {
  }

  lemma TimeoutLineIsHarmless()
    ensures Harmless("tx_timestamp_timeout 50")
  {
  }

  lemma PtpMacLineIsHarmless()
    ensures Harmless("ptp_dst_mac 01:1B:19:00:00:00")
  {
  }

  lemma P2pMacLineIsHarmless()
    ensures Harmless("p2p_dst_mac 01:80:C2:00:00:0E")
  {
  }

  lemma DomainLineIsHarmless()
    ensures Harmless("domainNumber 24")
  {
  }

  lemma LogLineIsHarmless()
    ensures Harmless("logging_level 7")
  {
  }

  lemma {:induction false} BaseIsNeutral()
    ensures GlobalOnly(BasePtp4lConfig(), BASE_LINES)
    ensures Neutral(BasePtp4lConfig())
  {
    TimeoutLineIsHarmless();
    PtpMacLineIsHarmless();
    P2pMacLineIsHarmless();
    DomainLineIsHarmless();
    LogLineIsHarmless();
    assert Harmless("") && '\n' !in GLOBAL;
    hide Harmless, Text.Split, Text.Join;
    forall i | 1 <= i < |BASE_LINES| ensures Harmless(BASE_LINES[i]) {}
    assert forall p :: p in BASE_LINES[1..] ==> Harmless(p);
    forall p | p in BASE_LINES ensures '\n' !in p {
      var i :| 0 <= i < |BASE_LINES| && p == BASE_LINES[i];
      if i > 0 {
        HarmlessIsOneLine(p);
      }
    }
    Text.SplitJoin(BASE_LINES, '\n');
    HarmlessText(BasePtp4lConfig(), BASE_LINES);
  }

  /** The text is the global header and harmless lines. */
  ghost predicate GlobalOnly(c: string, texts: seq<string>) {
    && Text.Split(c, '\n') == texts && |texts| > 0 && texts[0] == GLOBAL
    && forall p :: p in texts[1..] ==> Harmless(p)
  }

  lemma OneMoreLine(c: string, texts: seq<string>, a: string)
    requires GlobalOnly(c, texts) && Harmless(a)
    ensures GlobalOnly(c + "\n" + a, texts + [a])
  {
    HarmlessIsOneLine(a);
    hide Harmless, Text.Split;
    Text.SplitAppend(c, a, '\n');
    Text.SplitOne(a, '\n');
    assert (texts + [a])[1..] == texts[1..] + [a];
  }

  lemma JbodLineIsHarmless()
    ensures Harmless("boundary_clock_jbod 1")
  {
  }

  lemma GmCapableLineIsHarmless()
    ensures Harmless("gmCapable 0")
  {
  }

  /** The lines the tests start from, for an ordinary clock and for a boundary clock. */
  lemma BaseLines()
    ensures Text.Split(BasePtp4lConfig(), '\n') ==
              ["[global]", "tx_timestamp_timeout 50", "ptp_dst_mac 01:1B:19:00:00:00",
               "p2p_dst_mac 01:80:C2:00:00:0E", "domainNumber 24", "logging_level 7", ""]
    ensures Text.Split(BoundaryClockBase(), '\n')
            == Text.Split(BasePtp4lConfig(), '\n') + ["boundary_clock_jbod 1"] + ["gmCapable 0"]
  {
    var a, b := "boundary_clock_jbod 1", "gmCapable 0";
    BaseIsNeutral();
    JbodLineIsHarmless();
    GmCapableLineIsHarmless();
    hide Harmless, Neutral, BasePtp4lConfig, Text.Split;
    OneMoreLine(BasePtp4lConfig(), BASE_LINES, a);
    OneMoreLine(BasePtp4lConfig() + "\n" + a, BASE_LINES + [a], b);
  }

  lemma BoundaryClockBaseIsNeutral()
    ensures Neutral(BoundaryClockBase())
  {
    var a, b := "boundary_clock_jbod 1", "gmCapable 0";
    BaseIsNeutral();
    JbodLineIsHarmless();
    GmCapableLineIsHarmless();
    hide Harmless, Neutral, GlobalOnly, BasePtp4lConfig;
    OneMoreLine(BasePtp4lConfig(), BASE_LINES, a);
    OneMoreLine(BasePtp4lConfig() + "\n" + a, BASE_LINES + [a], b);
    HarmlessText(BoundaryClockBase(), BASE_LINES + [a] + [b]);
  }

  // ----- literal texts -----

  /** What is printed for an interface in either role. */
  lemma PrintedText(c: string, x: string)
    ensures AddInterface(c, x, Master) == c + "\n[" + x + "]\nmasterOnly 1"
    ensures AddInterface(c, x, Slave) == c + "\n[" + x + "]\nmasterOnly 0"
  {
    Spelled(c, x, "1");
    Spelled(c, x, "0");
  }

  lemma Spelled(c: string, x: string, digit: string)
    ensures c + "\n" + ("[" + x + "]") + "\n" + ("masterOnly" + " " + digit) == c + "\n[" + x + "]\nmasterOnly " + digit
  {
    assert "\n" + ("[" + x + "]") == "\n[" + x + "]";
    assert "\n" + ("masterOnly" + " " + digit) == "\nmasterOnly " + digit;
  }

  lemma GlobalAloneIsNeutral()
    ensures Neutral("[global]")
  {
    assert '\n' !in "[global]";
    Text.SplitOne("[global]", '\n');
    HarmlessText("[global]", ["[global]"]);
  }

  lemma LoneRole(name: string, role: Role, x: string)
    ensures LastRole([Entry(name, role)], x) == if x == name then Some(role) else None
  {
    assert [Entry(name, role)][..0] == [];
  }

  lemma AddOne(c: string, name: string, role: Role)
    ensures AddAll(c, [Entry(name, role)]) == AddInterface(c, name, role)
  {
    assert [Entry(name, role)][..0] == [];
  }

  /** A section with `masterOnly` 1 is a master, and with 0 a slave. */
  lemma MasterOnlySection(x: string, digit: string, role: Role, order: seq<string>)
    requires PlainName(x) && '\n' !in x && x != "global" && digit in {"0", "1"}
    requires Enumerates(order, ParsedSections(Some("[global]\n[" + x + "]\nmasterOnly " + digit)).Keys)
    ensures InterfacesIn(ParsedSections(Some("[global]\n[" + x + "]\nmasterOnly " + digit)), None, role, order)
            == if digit == (if role == Master then "1" else "0") then [x] else []
  {
    var printed := if digit == "1" then Master else Slave;
    var text := "[global]\n[" + x + "]\nmasterOnly " + digit;
    GlobalAloneIsNeutral();
    PrintedText("[global]", x);
    assert "[global]" + "\n[" == "[global]\n[";
    assert text == AddInterface("[global]", x, printed);
    AddOne("[global]", x, printed);
    hide AddInterface, AddAll, ParsedSections, InterfacesIn, Neutral, LastRole, Enumerates, PlainName;
    forall y ensures LastRole([Entry(x, printed)], y) == if y == x then Some(printed) else None {
      LoneRole(x, printed, y);
    }
    PrintedInterfaces("[global]", [Entry(x, printed)], role, order);
    OneOrNone(InterfacesIn(ParsedSections(Some(text)), None, role, order), x);
  }

  /** A sequence without repetition whose only possible members are `x`. */
  lemma OneOrNone(names: seq<string>, x: string)
    requires NoDuplicates(names) && forall y :: y in names ==> y == x
    ensures names == if x in names then [x] else []
  {
    if |names| > 1 {
      TwoAreNotDistinct(names, x);
    } else if |names| == 1 {
      assert names[0] in names;
    }
  }

  lemma TwoAreNotDistinct(names: seq<string>, x: string)
    requires |names| > 1 && forall y :: y in names ==> y == x
    ensures !NoDuplicates(names)
  {
    assert names[0] in names && names[1] in names;
  }

  /** A role in the global section is one of the profile's own interface, if it has one. */
  lemma GlobalRole(digit: string, role: Role, iface: Option<string>, order: seq<string>)
    requires digit in {"0", "1"} && digit == (if role == Master then "1" else "0")
    requires Enumerates(order, ParsedSections(Some("[global]\nmasterOnly " + digit)).Keys)
    ensures forall x :: x in InterfacesIn(ParsedSections(Some("[global]\nmasterOnly " + digit)), iface, role, order)
                        <==> iface == Some(x)
  {
    var text := "[global]\nmasterOnly " + digit;
    hide InterfacesIn, Enumerates, ParsedSections;
    GlobalRoleSections(digit, role);
    HasPrintedRole(role);
    PlainSection("global");
    assert GLOBAL == "[" + "global" + "]";
    hide HasRole, InterfaceName;
    forall x {
      InterfacesMember(ParsedSections(Some(text)), iface, role, order, x);
    }
  }

  lemma HasPrintedRole(role: Role)
    ensures HasRole(RoleOptions(role), role)
  {
    assert Text.NoOuterBlank(Digit(role));
    Text.TrimKeepsPlain(Digit(role));
  }

  lemma GlobalRoleText(digit: string, role: Role)
    requires digit == (if role == Master then "1" else "0")
    ensures "[global]\nmasterOnly " + digit == "[global]" + ['\n'] + RoleLine(role)
    ensures '\n' !in "[global]" && '\n' !in RoleLine(role) && SectionOf("global") == GLOBAL && ']' !in "global"
  {
    assert "[global]\n" == "[global]" + ['\n'];
    assert "\n" + ("masterOnly" + " " + digit) == "\nmasterOnly " + digit;
  }

  lemma GlobalRoleLines(digit: string, role: Role)
    requires digit == (if role == Master then "1" else "0")
    ensures LinesOf(Some("[global]\nmasterOnly " + digit))
            == [Header(GLOBAL)] + [Assignment(MASTER_ONLY, Digit(role))]
  {
    GlobalRoleText(digit, role);
    ClassifySection("global");
    ClassifyRole(role);
    hide RoleLine, SectionOf, Classify, Text.Split, ClassifyAll;
    Text.SplitAppend("[global]", RoleLine(role), '\n');
    Text.SplitOne("[global]", '\n');
    Text.SplitOne(RoleLine(role), '\n');
    ClassifyTwo("[global]", RoleLine(role));
  }

  lemma ClassifyTwo(a: string, b: string)
    ensures ClassifyAll([a] + [b]) == [Classify(a)] + [Classify(b)]
  {
    hide Classify;
    ClassifyOneMore([a], b);
    ClassifyOneMore([], a);
    assert [] + [a] == [a] && ClassifyAll([]) == [];
  }

  lemma GlobalRoleSections(digit: string, role: Role)
    requires digit == (if role == Master then "1" else "0")
    ensures ParsedSections(Some("[global]\nmasterOnly " + digit)) == map[GLOBAL := RoleOptions(role)]
  {
    GlobalRoleLines(digit, role);
    hide LinesOf;
    assert ScanLines([]) == Scan("", map[], None);
    ScanAdded([], GLOBAL, role);
    assert [] + [Header(GLOBAL)] == [Header(GLOBAL)];
  }

  lemma SectionsOfOne(y: string)
    requires '\n' !in y && ']' !in y
    ensures ParsedSections(Some("[global]\n[" + y + "]\nmasterOnly 1")).Keys == {"[global]", SectionOf(y)}
  {
    GlobalAloneIsNeutral();
    PrintedText("[global]", y);
    hide ParsedSections, ParsedError, AddInterface, SectionOf;
    assert "[global]" + "\n[" == "[global]\n[";
    ParseAdded("[global]", y, Master);
  }

  /** A section is admitted beside an own interface iff it is that interface's. */
  lemma OwnSectionAdmitted(p: Profile, compiles: string -> bool, x: string, y: string)
    requires p.iface == Some(x) && x != "" && '\n' !in y && ']' !in y && y != "global"
    requires p.ptp4lConf == Some("[global]\n[" + y + "]\nmasterOnly 1")
    requires p.schedulingPolicy != Some("SCHED_FIFO") && p.settings.None?
    ensures Admitted(p, compiles) <==> x == y
  {
    SectionsOfOne(y);
    hide ParsedSections, Admitted;
    AdmittedIff(p, compiles);
    SectionOfIsInjective(x, y);
    SectionOfIsInjective(y, "global");
    assert "[global]" == SectionOf("global");
    assert SectionOf(y) in ParsedSections(p.ptp4lConf);
  }
}

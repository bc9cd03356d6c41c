/** The section parser of ptp4l configuration text: `populatePtp4lConf` in `api/v1/ptpconfig_webhook.go`. */
module Ptp4lConf {
  import opened Prelude
  import Text

  type Options = map<string, string>
  type Sections = map<string, Options>

  datatype ParseError = MissingBracket | NotInSection

  const GLOBAL := "[global]"

  /** What a line of text is to the parser. */
  datatype Line =
    | Header(name: string)              // starts with `[`; the name ends at the first `]`
    | Unclosed                          // starts with `[` and has no `]`
    | Assignment(key: string, value: string)
    | Other                             // no blank, or a blank in front

  function Classify(text: string): Line {
    if |text| > 0 && text[0] == '[' then
      var close := Text.IndexOf(text, ']');
      if close < 0 then Unclosed else Header(text[..close] + "]")
    else
      var blank := Text.IndexOf(text, ' ');
      if blank > 0 then Assignment(text[..blank], Text.Trim(text[blank + 1..])) else Other
  }

  /** A section name always ends in `]`. */
  ghost predicate Named(lines: seq<Line>) {
    forall i :: 0 <= i < |lines| && lines[i].Header? ==> |lines[i].name| > 0
  }

  function ClassifyAll(texts: seq<string>): (r: seq<Line>)
    ensures |r| == |texts|
  {
    if texts == [] then [] else ClassifyAll(texts[..|texts| - 1]) + [Classify(texts[|texts| - 1])]
  }

  lemma {:induction false} ClassifiedOneByOne(texts: seq<string>)
    ensures forall i :: 0 <= i < |texts| ==> ClassifyAll(texts)[i] == Classify(texts[i])
    ensures Named(ClassifyAll(texts))
  {
    if texts != [] {
      ClassifiedOneByOne(texts[..|texts| - 1]);
    }
  }

  lemma ClassifiedAt(texts: seq<string>, i: nat)
    requires i < |texts|
    ensures ClassifyAll(texts)[i] == Classify(texts[i])
  {
    ClassifiedOneByOne(texts);
  }

  /** The lines of the text; no text at all is one empty line. */
  function LinesOf(config: Option<string>): seq<Line> {
    ClassifyAll(Text.Split(if config.Some? then config.value else "", '\n'))
  }

  // ----- the scan as a fold over the lines -----

  datatype Scan = Scan(current: string, sections: Sections, error: Option<ParseError>) {
    predicate Valid() {
      |current| > 0 ==> current in sections
    }
  }

  function Step(s: Scan, line: Line): (r: Scan)
    requires s.Valid()
    ensures r.Valid()
  {
    if s.error.Some? then s
    else
      match line
      case Unclosed => s.(error := Some(MissingBracket))
      case Header(name) => Scan(name, s.sections[name := map[]], None)
      case Assignment(key, value) =>
        if |s.current| == 0 then s.(error := Some(NotInSection))
        else s.(sections := s.sections[s.current := s.sections[s.current][key := value]])
      case Other =>
        if |s.current| == 0 then s.(error := Some(NotInSection)) else s
  }

  function ScanLines(lines: seq<Line>): (r: Scan)
    ensures r.Valid()
  {
    if lines == [] then Scan("", map[], None)
    else Step(ScanLines(lines[..|lines| - 1]), lines[|lines| - 1])
  }

  function WithGlobal(sections: Sections): Sections {
    if GLOBAL in sections then sections else sections[GLOBAL := map[]]
  }

  /** The sections the parser leaves behind, also when it reports an error. */
  function ParsedSections(config: Option<string>): Sections {
    var s := ScanLines(LinesOf(config));
    if s.error.None? then WithGlobal(s.sections) else s.sections
  }

  function ParsedError(config: Option<string>): Option<ParseError> {
    ScanLines(LinesOf(config)).error
  }

  lemma ScanStep(lines: seq<Line>, i: nat)
    requires i < |lines|
    ensures ScanLines(lines[..i + 1]) == Step(ScanLines(lines[..i]), lines[i])
  {
    assert lines[..i + 1][..i] == lines[..i];
  }

  /** Nothing after the first error has any effect. */
  lemma {:induction false} FirstErrorStays(lines: seq<Line>, k: nat)
    requires k <= |lines| && ScanLines(lines[..k]).error.Some?
    ensures ScanLines(lines) == ScanLines(lines[..k])
  {
    if k < |lines| {
      var init := lines[..|lines| - 1];
      assert init[..k] == lines[..k];
      FirstErrorStays(init, k);
    } else {
      assert lines[..k] == lines;
    }
  }

  lemma ErrorEnds(lines: seq<Line>, i: nat)
    requires i < |lines| && Step(ScanLines(lines[..i]), lines[i]).error.Some?
    ensures ScanLines(lines) == Step(ScanLines(lines[..i]), lines[i])
  {
    ScanStep(lines, i);
    FirstErrorStays(lines, i + 1);
  }

  /** How the code takes a header apart. */
  lemma HeaderBySplit(text: string)
    requires |text| > 0 && text[0] == '['
    ensures var pieces := Text.Split(text, ']');
            Classify(text) == if |pieces| < 2 then Unclosed else Header(pieces[0] + "]")
  {
  }

  /** How the code takes any other line apart. */
  lemma OtherByIndex(text: string)
    requires !(|text| > 0 && text[0] == '[')
    ensures var split := Text.IndexOf(text, ' ');
            Classify(text) == if split > 0 then Assignment(text[..split], Text.Trim(text[split + 1..])) else Other
  {
  }

  // ----- what the lines are, literally -----

  /** A header may be followed by anything. */
  lemma HeaderLine(name: string, rest: string)
    requires ']' !in name
    ensures Classify("[" + name + "]" + rest) == Header("[" + name + "]")
  {
    var text := "[" + name + "]" + rest;
    assert text[..|name| + 1] == "[" + name;
    Text.IndexOfIs(text, ']', |name| + 1);
  }

  lemma UnclosedLine(name: string)
    requires ']' !in name
    ensures Classify("[" + name) == Unclosed
  {
    Text.IndexOfSpec("[" + name, ']');
  }

  /** A key, a blank, and a value without the blanks around it. */
  lemma OptionLine(key: string, left: string, value: string, right: string)
    requires key != "" && key[0] != '[' && ' ' !in key
    requires value != "" && '!' <= value[0] <= '~' && '!' <= value[|value| - 1] <= '~'
    requires forall c :: c in left || c in right ==> c in Text.BLANKS
    ensures Classify(key + " " + left + value + right) == Assignment(key, value)
  {
    var text := key + " " + left + value + right;
    Text.IndexOfIs(text, ' ', |key|);
    assert text[..|key|] == key && text[|key| + 1..] == left + value + right;
    Text.TrimDropsBlanks(left, value, right);
  }

  /** A line without a blank, or with one in front, says nothing. */
  lemma EmptyLine(text: string)
    requires text == "" || (text[0] != '[' && (text[0] == ' ' || ' ' !in text))
    ensures Classify(text) == Other
  {
    Text.IndexOfSpec(text, ' ');
  }

  /** The lines are what the newlines separate. */
  lemma LinesAreSeparated(texts: seq<string>)
    requires |texts| >= 1 && forall t :: t in texts ==> '\n' !in t
    ensures |LinesOf(Some(Text.Join(texts, '\n')))| == |texts|
    ensures forall i :: 0 <= i < |texts| ==> LinesOf(Some(Text.Join(texts, '\n')))[i] == Classify(texts[i])
  {
    Text.SplitJoin(texts, '\n');
    ClassifiedOneByOne(texts);
  }

  // ----- the code -----

  class Ptp4lConfig {
    var sections: Sections

    constructor ()
      ensures sections == map[]
    {
      sections := map[];
    }

    /** One round of the loop of `populatePtp4lConf`. */
    method ReadLine(text: string, currentSection: string) returns (newSection: string, err: Option<ParseError>)
      requires |currentSection| > 0 ==> currentSection in sections
      modifies this
      ensures var s := Step(Scan(currentSection, old(sections), None), Classify(text));
              err == s.error && sections == s.sections && (err.None? ==> newSection == s.current)
    {
      newSection := currentSection;
      if |text| > 0 && text[0] == '[' {
        newSection := text;
        var currentLine := Text.Split(text, ']');
        HeaderBySplit(text);
        if |currentLine| < 2 {
          return newSection, Some(MissingBracket);
        }
        newSection := currentLine[0] + "]";
        sections := sections[newSection := map[]];
      } else if |newSection| > 0 {
        OtherByIndex(text);
        var split := Text.IndexOf(text, ' ');
        if split > 0 {
          var options := sections[newSection];
          options := options[text[..split] := Text.Trim(text[split + 1..])];
          sections := sections[newSection := options];
        }
      } else {
        OtherByIndex(text);
        return newSection, Some(NotInSection);
      }
      return newSection, None;
    }

    /** `populatePtp4lConf`; its second argument is never read. */
    method Populate(config: Option<string>, ptp4lOpts: Option<string>) returns (err: Option<ParseError>)
      modifies this
      ensures err == ParsedError(config)
      ensures sections == ParsedSections(config)
    {
      hide Classify, Text.Split;
      var stringConfig := "";
      if config.Some? {
        stringConfig := config.value;
      }
      var texts := Text.Split(stringConfig, '\n');
      var currentSection := "";
      sections := map[];
      for i := 0 to |texts|
        invariant ScanLines(ClassifyAll(texts)[..i]) == Scan(currentSection, sections, None)
      {
        ClassifiedAt(texts, i);
        currentSection, err := ReadLine(texts[i], currentSection);
        if err.Some? {
          ErrorEnds(ClassifyAll(texts), i);
          return err;
        }
        ScanStep(ClassifyAll(texts), i);
      }
      assert ClassifyAll(texts)[..|texts|] == ClassifyAll(texts);
      if GLOBAL !in sections {
        sections := sections[GLOBAL := map[]];
      }
      return None;
    }
  }
}

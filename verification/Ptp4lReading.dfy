/** What the section parser means, read off the lines without running it. */
module Ptp4lReading {
  import opened Prelude
  import opened Ptp4lConf
  import Text

  /** The line stops the parser: it is an unclosed header, or the text does not begin with a header. */
  predicate Bad(lines: seq<Line>, i: nat)
    requires i < |lines|
  {
    lines[i].Unclosed? || (i == 0 && !lines[0].Header?)
  }

  ghost predicate NoBadBefore(lines: seq<Line>, k: nat)
    requires k <= |lines|
  {
    forall i: nat :: i < k ==> !Bad(lines, i)
  }

  /** The last of the first `k` lines that opens section `name`, or -1. */
  ghost function LastHeader(lines: seq<Line>, k: nat, name: string): (h: int)
    requires k <= |lines|
    ensures -1 <= h < k
    ensures h >= 0 ==> lines[h] == Header(name)
    ensures forall j :: h < j < k ==> lines[j] != Header(name)
  {
    if k == 0 then -1
    else if lines[k - 1] == Header(name) then k - 1
    else LastHeader(lines, k - 1, name)
  }

  /** Line `i` assigns `key` between header `h` and the next header. */
  ghost predicate Assigns(lines: seq<Line>, h: nat, i: nat, key: string)
    requires i < |lines|
  {
    && h < i && lines[i].Assignment? && lines[i].key == key
    && forall j :: h < j < i ==> !lines[j].Header?
  }

  /** The last of the first `k` lines that assigns `key` in the block of header `h`, or -1. */
  ghost function LastAssignment(lines: seq<Line>, k: nat, h: nat, key: string): (i: int)
    requires k <= |lines|
    ensures -1 <= i < k
    ensures i >= 0 ==> Assigns(lines, h, i, key)
    ensures forall j: nat :: i < j < k ==> !Assigns(lines, h, j, key)
  {
    if k == 0 then -1
    else if Assigns(lines, h, k - 1, key) then k - 1
    else LastAssignment(lines, k - 1, h, key)
  }

  /** The options are those of the block opened by header `h`, the last assignment to a key winning. */
  ghost predicate ReadsBlock(lines: seq<Line>, k: nat, h: nat, options: Options)
    requires k <= |lines|
  {
    forall key ::
      var i := LastAssignment(lines, k, h, key);
      if i >= 0 then key in options && options[key] == lines[i].value else key !in options
  }

  /** The section is there iff the lines open it, and holds the block of its last header. */
  ghost predicate ReadsName(lines: seq<Line>, k: nat, sections: Sections, name: string)
    requires k <= |lines|
  {
    var h := LastHeader(lines, k, name);
    if h >= 0 then name in sections && ReadsBlock(lines, k, h, sections[name]) else name !in sections
  }

  /** The declarative reading of the first `k` lines. */
  ghost predicate Reads(lines: seq<Line>, k: nat, sections: Sections)
    requires k <= |lines|
  {
    forall name :: ReadsName(lines, k, sections, name)
  }

  function WithLine(options: Options, line: Line): Options {
    if line.Assignment? then options[line.key := line.value] else options
  }

  /** A line in the block of header `h` can only assign one key of it. */
  lemma OpenBlockStep(lines: seq<Line>, k: nat, h: nat, options: Options)
    requires h < k < |lines| && ReadsBlock(lines, k, h, options)
    requires forall j :: h < j < k ==> !lines[j].Header?
    ensures ReadsBlock(lines, k + 1, h, WithLine(options, lines[k]))
  {
  }

  /** A line behind the block of header `h` does not concern it. */
  lemma ClosedBlockStep(lines: seq<Line>, k: nat, h: nat, options: Options)
    requires h < k < |lines| && ReadsBlock(lines, k, h, options)
    requires exists j :: h < j <= k && lines[j].Header?
    ensures ReadsBlock(lines, k + 1, h, options)
  {
  }

  lemma EmptyBlock(lines: seq<Line>, h: nat)
    requires h < |lines|
    ensures ReadsBlock(lines, h + 1, h, map[])
  {
  }

  /** The scan has read `k` lines, none of them bad, and `h` is the header of its open section. */
  ghost predicate Understood(lines: seq<Line>, k: nat, s: Scan, h: nat)
    requires k <= |lines|
  {
    && s.Valid() && s.error.None? && Reads(lines, k, s.sections)
    && (k == 0 ==> |s.current| == 0)
    && (k > 0 ==>
          && |s.current| > 0 && h < k && lines[h] == Header(s.current)
          && forall j :: h < j < k ==> !lines[j].Header?)
  }

  /** A header starts its section afresh and leaves the reading of the others alone. */
  lemma HeaderUnderstood(lines: seq<Line>, k: nat, s: Scan, h: nat)
    requires k < |lines| && Understood(lines, k, s, h)
    requires lines[k].Header? && |lines[k].name| > 0
    ensures Understood(lines, k + 1, Step(s, lines[k]), k)
  {
    var k1, sections' := k + 1, Step(s, lines[k]).sections;
    EmptyBlock(lines, k);
    hide ReadsBlock;
    forall name ensures ReadsName(lines, k1, sections', name) {
      assert ReadsName(lines, k, s.sections, name);
      var h0 := LastHeader(lines, k, name);
      if lines[k] != Header(name) && h0 >= 0 {
        ClosedBlockStep(lines, k, h0, s.sections[name]);
      }
    }
  }

  lemma OtherNameUnderstood(lines: seq<Line>, k: nat, sections: Sections, current: string, h: nat, name: string)
    requires h < k < |lines| && ReadsName(lines, k, sections, name) && current in sections
    requires lines[h] == Header(current) && forall j :: h < j < k ==> !lines[j].Header?
    requires !lines[k].Header?
    ensures ReadsName(lines, k + 1, sections[current := WithLine(sections[current], lines[k])], name)
  {
    hide ReadsBlock, WithLine;
    var h0 := LastHeader(lines, k, name);
    assert LastHeader(lines, k + 1, name) == h0;
    if name == current {
      assert h0 == h;
      OpenBlockStep(lines, k, h, sections[name]);
    } else if h0 >= 0 {
      assert lines[h].Header? && h0 < h;
      ClosedBlockStep(lines, k, h0, sections[name]);
    }
  }

  /** Any other line only concerns the open section. */
  lemma OtherUnderstood(lines: seq<Line>, k: nat, s: Scan, h: nat)
    requires 0 < k < |lines| && Understood(lines, k, s, h)
    requires !lines[k].Header? && !lines[k].Unclosed?
    ensures Understood(lines, k + 1, Step(s, lines[k]), h)
  {
    var k1, sections' := k + 1, Step(s, lines[k]).sections;
    assert sections' == s.sections[s.current := WithLine(s.sections[s.current], lines[k])];
    hide ReadsBlock, WithLine;
    forall name ensures ReadsName(lines, k1, sections', name) {
      assert ReadsName(lines, k, s.sections, name);
      OtherNameUnderstood(lines, k, s.sections, s.current, h, name);
    }
    assert Reads(lines, k1, sections');
  }

  lemma NothingUnderstood(lines: seq<Line>)
    ensures Understood(lines, 0, ScanLines(lines[..0]), 0)
  {
  }

  /** As long as no bad line is met, the scan's sections are the reading of the lines so far. */
  lemma {:induction false} ScanUnderstood(lines: seq<Line>, k: nat) returns (h: nat)
    requires Named(lines) && k <= |lines| && NoBadBefore(lines, k)
    ensures Understood(lines, k, ScanLines(lines[..k]), h)
  {
    if k == 0 {
      NothingUnderstood(lines);
      h := 0;
    } else {
      hide Understood, ScanLines, Step;
      var j := k - 1;
      h := ScanUnderstood(lines, j);
      ScanStep(lines, j);
      assert !Bad(lines, j);
      if lines[j].Header? {
        HeaderUnderstood(lines, j, ScanLines(lines[..j]), h);
        h := j;
      } else {
        OtherUnderstood(lines, j, ScanLines(lines[..j]), h);
      }
    }
  }

  /** The first bad line, if any, ends the scan with the error it deserves. */
  lemma ScanStopsAtFirstBad(lines: seq<Line>, k: nat)
    requires Named(lines) && k < |lines| && NoBadBefore(lines, k) && Bad(lines, k)
    ensures ScanLines(lines).error == Some(if lines[k].Unclosed? then MissingBracket else NotInSection)
    ensures ScanLines(lines).sections == ScanLines(lines[..k]).sections
  {
    var _ := ScanUnderstood(lines, k);
    hide ScanLines, Reads;
    ErrorEnds(lines, k);
  }

  /** What a successful scan leaves: the reading of all lines, `[global]` added if there is none. */
  ghost predicate ReadsAll(lines: seq<Line>, sections: Sections) {
    && (forall name :: name != "[global]" ==> ReadsName(lines, |lines|, sections, name))
    && "[global]" in sections
    && (Header("[global]") in lines ==> ReadsName(lines, |lines|, sections, "[global]"))
    && (Header("[global]") !in lines ==> sections["[global]"] == map[])
  }

  lemma GlobalAdded(lines: seq<Line>, base: Sections)
    requires Reads(lines, |lines|, base)
    ensures ReadsAll(lines, WithGlobal(base))
  {
    assert ReadsName(lines, |lines|, base, "[global]");
    forall name | name != "[global]" ensures ReadsName(lines, |lines|, WithGlobal(base), name) {
      assert ReadsName(lines, |lines|, base, name);
    }
    if i :| 0 <= i < |lines| && lines[i] == Header("[global]") {
      assert LastHeader(lines, |lines|, "[global]") >= i;
    }
  }

  /** No other sections are left by a text that is read. */
  lemma ReadsAllIsUnique(lines: seq<Line>, s: Sections, t: Sections)
    requires ReadsAll(lines, s) && ReadsAll(lines, t)
    ensures s == t
  {
    forall name ensures (name in s <==> name in t) && (name in s ==> s[name] == t[name]) {
      if name != "[global]" || Header("[global]") in lines {
        NameIsUnique(lines, |lines|, s, t, name);
      }
    }
  }

  /** What a failed scan leaves: the reading of the lines in front of the first bad one. */
  ghost predicate ReadsUpToError(lines: seq<Line>, sections: Sections, e: ParseError) {
    exists k: nat :: k < |lines| && NoBadBefore(lines, k) && Bad(lines, k)
      && Reads(lines, k, sections) && e == if lines[k].Unclosed? then MissingBracket else NotInSection
  }

  /**
   The parser refines the declarative reading. It fails iff the first line is no closed
   header or some header lacks its closing bracket. Otherwise its sections are the reading
   of all lines; after a failure they are the reading of the lines in front of the bad one.
   */
  lemma ParserIsReading(config: Option<string>)
    ensures |LinesOf(config)| > 0
    ensures ParsedError(config).Some? <==>
              !LinesOf(config)[0].Header? || exists i :: 0 <= i < |LinesOf(config)| && LinesOf(config)[i].Unclosed?
    ensures ParsedError(config).None? ==> ReadsAll(LinesOf(config), ParsedSections(config))
    ensures ParsedError(config).Some? ==>
              ReadsUpToError(LinesOf(config), ParsedSections(config), ParsedError(config).value)
  {
    var lines := LinesOf(config);
    ClassifiedOneByOne(Text.Split(if config.Some? then config.value else "", '\n'));
    if NoBadBefore(lines, |lines|) {
      GoodLinesRead(lines);
    } else {
      BadLineStops(lines);
    }
  }

  lemma GoodLinesRead(lines: seq<Line>)
    requires Named(lines) && |lines| > 0 && NoBadBefore(lines, |lines|)
    ensures lines[0].Header? && forall i :: 0 <= i < |lines| ==> !lines[i].Unclosed?
    ensures ScanLines(lines).error.None? && ReadsAll(lines, WithGlobal(ScanLines(lines).sections))
  {
    assert lines[..|lines|] == lines;
    var _ := ScanUnderstood(lines, |lines|);
    hide ScanLines, Reads, ReadsAll;
    GlobalAdded(lines, ScanLines(lines).sections);
    assert !Bad(lines, 0);
    forall i: nat | i < |lines| ensures !lines[i].Unclosed? {
      assert !Bad(lines, i);
    }
  }

  lemma BadLineStops(lines: seq<Line>)
    requires Named(lines) && |lines| > 0 && !NoBadBefore(lines, |lines|)
    ensures !lines[0].Header? || exists i :: 0 <= i < |lines| && lines[i].Unclosed?
    ensures ScanLines(lines).error.Some?
    ensures ReadsUpToError(lines, ScanLines(lines).sections, ScanLines(lines).error.value)
  {
    var bad: nat :| bad < |lines| && Bad(lines, bad);
    var k := FirstBad(lines, bad);
    ScanStopsAtFirstBad(lines, k);
    var _ := ScanUnderstood(lines, k);
    hide ScanLines, Reads;
  }

  lemma {:induction false} FirstBad(lines: seq<Line>, bad: nat) returns (k: nat)
    requires bad < |lines| && Bad(lines, bad)
    ensures k < |lines| && NoBadBefore(lines, k) && Bad(lines, k)
  {
    k := 0;
    while !Bad(lines, k)
      invariant k <= bad && NoBadBefore(lines, k)
      decreases bad - k
    {
      k := k + 1;
    }
  }

  /** Two readings of the same lines agree, so the reading is the only thing the text can mean. */
  lemma ReadingIsUnique(lines: seq<Line>, k: nat, s: Sections, t: Sections)
    requires k <= |lines| && Reads(lines, k, s) && Reads(lines, k, t)
    ensures s == t
  {
    forall name ensures (name in s <==> name in t) && (name in s ==> s[name] == t[name]) {
      assert ReadsName(lines, k, s, name) && ReadsName(lines, k, t, name);
      NameIsUnique(lines, k, s, t, name);
    }
  }

  lemma NameIsUnique(lines: seq<Line>, k: nat, s: Sections, t: Sections, name: string)
    requires k <= |lines| && ReadsName(lines, k, s, name) && ReadsName(lines, k, t, name)
    ensures (name in s <==> name in t) && (name in s ==> s[name] == t[name])
  {
    if name in s {
      var h := LastHeader(lines, k, name);
      forall key ensures key in s[name] <==> key in t[name] {
        assert LastAssignment(lines, k, h, key) >= 0 <==> key in s[name];
      }
      forall key | key in s[name] ensures s[name][key] == t[name][key] {
        assert LastAssignment(lines, k, h, key) >= 0;
      }
    }
  }

  /** A missing text is one empty line outside any section. */
  lemma NilConfigIsRejected()
    ensures ParsedError(None) == Some(NotInSection) && ParsedSections(None) == map[]
  {
  }
}

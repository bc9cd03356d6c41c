/** The `haProfiles` pattern `^([\w\-_]+)(,\s*([\w\-_]+))*$` of `api/v1/ptpconfig_webhook.go`. */
module HaProfiles {
  import Text

  // ----- regular expressions by the texts they match -----

  /** The operators the pattern uses; a class is given by its members. */
  datatype Regex =
    | Class(members: char -> bool)
    | Cat(first: Regex, second: Regex)
    | Star(body: Regex)

  /** Whether the whole text matches. A star takes its repetitions non-empty, which loses nothing. */
  ghost predicate Accepts(r: Regex, s: string)
    decreases r, |s|
  {
    match r
    case Class(members) => |s| == 1 && members(s[0])
    case Cat(first, second) => exists i :: 0 <= i <= |s| && Accepts(first, s[..i]) && Accepts(second, s[i..])
    case Star(body) => s == "" || exists i :: 0 < i <= |s| && Accepts(body, s[..i]) && Accepts(r, s[i..])
  }

  function Plus(r: Regex): Regex {
    Cat(r, Star(r))
  }

  /** `[\w\-_]`. */
  predicate IsWordChar(c: char) {
    '0' <= c <= '9' || 'A' <= c <= 'Z' || 'a' <= c <= 'z' || c == '_' || c == '-'
  }

  /** `\s`. */
  predicate IsBlank(c: char) {
    c == ' ' || c == '\t' || c == '\n' || c == '\U{0C}' || c == '\r'
  }

  predicate IsComma(c: char) {
    c == ','
  }

  function WordRegex(): Regex { Plus(Class(IsWordChar)) }

  function TailRegex(): Regex { Cat(Class(IsComma), Cat(Star(Class(IsBlank)), WordRegex())) }

  function ProfileRegex(): Regex { Cat(WordRegex(), Star(TailRegex())) }

  // ----- the language in plain terms -----

  predicate IsWord(s: string) {
    s != "" && forall c :: c in s ==> IsWordChar(c)
  }

  predicate IsGap(s: string) {
    forall c :: c in s ==> IsBlank(c)
  }

  /** The words, each but the first behind a comma and its gap. */
  function Render(words: seq<string>, gaps: seq<string>): string
    requires |words| == |gaps|
  {
    if words == [] then "" else "," + gaps[0] + words[0] + Render(words[1..], gaps[1..])
  }

  ghost predicate IsList(s: string, words: seq<string>, gaps: seq<string>) {
    && |words| == |gaps| + 1
    && (forall w :: w in words ==> IsWord(w))
    && (forall g :: g in gaps ==> IsGap(g))
    && s == words[0] + Render(words[1..], gaps)
  }

  function TrimAll(parts: seq<string>): seq<string> {
    if parts == [] then [] else [Text.Trim(parts[0])] + TrimAll(parts[1..])
  }

  /** A piece between commas: blanks, then a word. */
  predicate IsPiece(s: string) {
    IsPieceFrom(s, 0)
  }

  predicate IsPieceFrom(s: string, i: nat)
    requires i <= |s|
    decreases |s| - i
  {
    if i < |s| && IsBlank(s[i]) then IsPieceFrom(s, i + 1) else IsWord(s[i..])
  }

  /** `profileRegEx.MatchString`, decided piece by piece. */
  predicate Matches(s: string) {
    var pieces := Text.Split(s, ',');
    IsWord(pieces[0]) && forall i :: 1 <= i < |pieces| ==> IsPiece(pieces[i])
  }

  // ----- the pattern accepts exactly the lists -----

  lemma {:induction false} StarOfClass(p: char -> bool, s: string)
    ensures Accepts(Star(Class(p)), s) <==> forall c :: c in s ==> p(c)
    decreases |s|
  {
    if s != "" {
      StarOfClass(p, s[1..]);
      assert s == [s[0]] + s[1..];
      assert s[..1] == [s[0]];
      assert Accepts(Class(p), s[..1]) <==> p(s[0]);
      forall i | 0 < i <= |s| && Accepts(Class(p), s[..i]) ensures i == 1 {}
    }
  }

  lemma WordIsWord(s: string)
    ensures Accepts(WordRegex(), s) <==> IsWord(s)
  {
    var c, rest := Class(IsWordChar), Star(Class(IsWordChar));
    if s != "" {
      assert s == s[..1] + s[1..] && s[..1] == [s[0]];
      StarOfClass(IsWordChar, s[1..]);
      assert Accepts(c, s[..1]) <==> IsWordChar(s[0]);
      forall i | 0 <= i <= |s| && Accepts(c, s[..i]) ensures i == 1 {}
      assert Accepts(WordRegex(), s) <==> Accepts(c, s[..1]) && Accepts(rest, s[1..]);
    }
  }

  /** Position `j` ends the comma and its gap. */
  ghost predicate IsTailAt(s: string, j: nat) {
    1 <= j <= |s| && s[0] == ',' && IsGap(s[1..j]) && IsWord(s[j..])
  }

  lemma GapWord(t: string, k: nat)
    requires k <= |t|
    ensures Accepts(Star(Class(IsBlank)), t[..k]) && Accepts(WordRegex(), t[k..]) <==> IsGap(t[..k]) && IsWord(t[k..])
  {
    StarOfClass(IsBlank, t[..k]);
    WordIsWord(t[k..]);
  }

  lemma AcceptedTail(s: string) returns (j: nat)
    requires Accepts(TailRegex(), s)
    ensures IsTailAt(s, j)
  {
    var comma, rest := Class(IsComma), Cat(Star(Class(IsBlank)), WordRegex());
    var i :| 0 <= i <= |s| && Accepts(comma, s[..i]) && Accepts(rest, s[i..]);
    assert i == 1 && s[..1][0] == s[0];
    var t := s[1..];
    var k :| 0 <= k <= |t| && Accepts(Star(Class(IsBlank)), t[..k]) && Accepts(WordRegex(), t[k..]);
    GapWord(t, k);
    assert t[..k] == s[1..k + 1] && t[k..] == s[k + 1..];
    j := k + 1;
  }

  lemma CatAccepted(first: Regex, second: Regex, s: string, i: nat)
    requires i <= |s| && Accepts(first, s[..i]) && Accepts(second, s[i..])
    ensures Accepts(Cat(first, second), s)
  {
  }

  lemma TailAccepted(s: string, j: nat)
    requires IsTailAt(s, j)
    ensures Accepts(TailRegex(), s)
  {
    var comma, gap := Class(IsComma), Star(Class(IsBlank));
    var t := s[1..];
    assert t[..j - 1] == s[1..j] && t[j - 1..] == s[j..];
    assert s[..1] == ",";
    assert Accepts(comma, s[..1]);
    hide Accepts, WordRegex, IsGap, IsWord;
    GapWord(t, j - 1);
    CatAccepted(gap, WordRegex(), t, j - 1);
    CatAccepted(comma, Cat(gap, WordRegex()), s, 1);
  }

  ghost predicate IsTails(s: string, words: seq<string>, gaps: seq<string>) {
    && |words| == |gaps|
    && (forall w :: w in words ==> IsWord(w))
    && (forall g :: g in gaps ==> IsGap(g))
    && s == Render(words, gaps)
  }

  lemma {:induction false} TailsAccepted(s: string, words: seq<string>, gaps: seq<string>)
    requires IsTails(s, words, gaps)
    ensures Accepts(Star(TailRegex()), s)
    decreases |words|
  {
    if words != [] {
      var head := "," + gaps[0] + words[0];
      var rest := Render(words[1..], gaps[1..]);
      var n := |head|;
      assert s == head + rest;
      assert s[..n] == head && s[n..] == rest;
      TailsAccepted(rest, words[1..], gaps[1..]);
      var j := 1 + |gaps[0]|;
      assert head[1..j] == gaps[0] && head[j..] == words[0];
      assert IsTailAt(head, j);
      TailAccepted(head, j);
      assert Accepts(TailRegex(), s[..n]) && Accepts(Star(TailRegex()), s[n..]);
    }
  }

  lemma {:induction false} AcceptedTails(s: string) returns (words: seq<string>, gaps: seq<string>)
    requires Accepts(Star(TailRegex()), s)
    ensures IsTails(s, words, gaps)
    decreases |s|
  {
    words, gaps := [], [];
    if s != "" {
      var i :| 0 < i <= |s| && Accepts(TailRegex(), s[..i]) && Accepts(Star(TailRegex()), s[i..]);
      var head := s[..i];
      var j := AcceptedTail(head);
      var ws, gs := AcceptedTails(s[i..]);
      words, gaps := [head[j..]] + ws, [head[1..j]] + gs;
      assert words[1..] == ws && gaps[1..] == gs;
      assert head == "," + head[1..j] + head[j..];
      assert s == head + s[i..];
    }
  }

  /** The pattern accepts exactly the comma-separated lists of words. */
  lemma PatternAcceptsLists(s: string)
    ensures Accepts(ProfileRegex(), s) <==> exists words, gaps :: IsList(s, words, gaps)
  {
    if Accepts(ProfileRegex(), s) {
      var i :| 0 <= i <= |s| && Accepts(WordRegex(), s[..i]) && Accepts(Star(TailRegex()), s[i..]);
      WordIsWord(s[..i]);
      var ws, gaps := AcceptedTails(s[i..]);
      var words := [s[..i]] + ws;
      assert words[1..] == ws && s == s[..i] + s[i..];
      assert IsList(s, words, gaps);
    }
    if words, gaps :| IsList(s, words, gaps) {
      var i := |words[0]|;
      assert s[..i] == words[0] && s[i..] == Render(words[1..], gaps);
      WordIsWord(s[..i]);
      assert IsTails(s[i..], words[1..], gaps);
      TailsAccepted(s[i..], words[1..], gaps);
    }
  }

  // ----- splitting recovers the list -----

  /** The pieces between the commas of a list. */
  function Pieces(words: seq<string>, gaps: seq<string>): seq<string>
    requires |words| == |gaps|
  {
    if words == [] then [] else [gaps[0] + words[0]] + Pieces(words[1..], gaps[1..])
  }

  lemma GapWordHasNoComma(gap: string, word: string)
    requires IsGap(gap) && IsWord(word)
    ensures ',' !in gap + word
  {
  }

  lemma RegroupPiece(first: string, gap: string, word: string, rest: string)
    ensures first + ("," + gap + word + rest) == first + [','] + ((gap + word) + rest)
  {
  }

  lemma {:induction false} SplitTails(first: string, words: seq<string>, gaps: seq<string>)
    requires |words| == |gaps| && ',' !in first
    requires forall w :: w in words ==> IsWord(w)
    requires forall g :: g in gaps ==> IsGap(g)
    ensures Text.Split(first + Render(words, gaps), ',') == [first] + Pieces(words, gaps)
    decreases |words|
  {
    hide Text.Split, IsWord, IsGap;
    if words == [] {
      assert first + Render(words, gaps) == first;
      Text.SplitOne(first, ',');
    } else {
      var next := gaps[0] + words[0];
      var rest := Render(words[1..], gaps[1..]);
      assert words[0] in words && gaps[0] in gaps;
      GapWordHasNoComma(gaps[0], words[0]);
      SplitTails(next, words[1..], gaps[1..]);
      RegroupPiece(first, gaps[0], words[0], rest);
      Text.SplitAppend(first, next + rest, ',');
      Text.SplitOne(first, ',');
    }
  }

  lemma TrimGapWord(gap: string, word: string)
    requires IsGap(gap) && IsWord(word)
    ensures Text.Trim(gap + word) == word
    ensures IsPiece(gap + word)
  {
    assert word[0] in word && word[|word| - 1] in word;
    Text.TrimIs(gap, word, "");
    assert gap + word + "" == gap + word;
    GapWordIsPiece(gap, word, 0);
  }

  lemma {:induction false} GapWordIsPiece(gap: string, word: string, i: nat)
    requires IsGap(gap) && IsWord(word) && i <= |gap|
    ensures IsPieceFrom(gap + word, i)
    decreases |gap| - i
  {
    if i < |gap| {
      assert gap[i] in gap;
      GapWordIsPiece(gap, word, i + 1);
    } else {
      assert word[0] in word;
      assert (gap + word)[i..] == word;
    }
  }

  lemma {:induction false} TrimPieces(words: seq<string>, gaps: seq<string>)
    requires |words| == |gaps|
    requires forall w :: w in words ==> IsWord(w)
    requires forall g :: g in gaps ==> IsGap(g)
    ensures TrimAll(Pieces(words, gaps)) == words
    ensures forall p :: p in Pieces(words, gaps) ==> IsPiece(p)
  {
    hide Text.Trim, IsWord, IsGap, IsPiece;
    if words != [] {
      assert words[0] in words && gaps[0] in gaps;
      TrimGapWord(gaps[0], words[0]);
      TrimPieces(words[1..], gaps[1..]);
    }
  }

  /** However a text is read as a list, splitting on commas and trimming recovers its words. */
  lemma SplitRecoversWords(s: string, words: seq<string>, gaps: seq<string>)
    requires IsList(s, words, gaps)
    ensures TrimAll(Text.Split(s, ',')) == words
    ensures Matches(s)
  {
    var ws := words[1..];
    assert words[0] in words;
    SplitTails(words[0], ws, gaps);
    TrimPieces(ws, gaps);
    TrimGapWord("", words[0]);
    var pieces := Text.Split(s, ',');
    assert pieces[1..] == Pieces(ws, gaps);
    assert "" + words[0] == words[0] == pieces[0];
    assert TrimAll(pieces) == [Text.Trim(pieces[0])] + TrimAll(pieces[1..]);
    forall i | 1 <= i < |pieces| ensures IsPiece(pieces[i]) {
      assert pieces[i] in pieces[1..];
    }
  }

  lemma {:induction false} PieceIsGapWord(s: string, i: nat) returns (n: nat)
    requires i <= |s| && IsPieceFrom(s, i)
    ensures i <= n <= |s| && IsGap(s[i..n]) && IsWord(s[n..])
    decreases |s| - i
  {
    if i < |s| && IsBlank(s[i]) {
      n := PieceIsGapWord(s, i + 1);
      assert s[i..n] == [s[i]] + s[i + 1..n];
    } else {
      n := i;
    }
  }

  lemma {:induction false} PiecesAreTails(pieces: seq<string>) returns (words: seq<string>, gaps: seq<string>)
    requires forall p :: p in pieces ==> IsPiece(p)
    ensures |words| == |gaps| && Pieces(words, gaps) == pieces
    ensures IsTails(Render(words, gaps), words, gaps)
  {
    words, gaps := [], [];
    if pieces != [] {
      assert pieces[0] in pieces;
      var n := PieceIsGapWord(pieces[0], 0);
      var g, w := pieces[0][0..n], pieces[0][n..];
      assert pieces[0] == g + w;
      var ws, gs := PiecesAreTails(pieces[1..]);
      words, gaps := [w] + ws, [g] + gs;
      assert words[1..] == ws && gaps[1..] == gs;
    }
  }

  /** The piecewise test decides the pattern. */
  lemma MatchesIsPattern(s: string)
    ensures Matches(s) <==> Accepts(ProfileRegex(), s)
  {
    PatternAcceptsLists(s);
    if Matches(s) {
      var pieces := Text.Split(s, ',');
      var ws, gaps := PiecesAreTails(pieces[1..]);
      var words := [pieces[0]] + ws;
      assert words[1..] == ws && pieces == [pieces[0]] + pieces[1..];
      Text.SplitPieces(s, ',');
      assert pieces[0] in pieces;
      SplitTails(pieces[0], ws, gaps);
      Text.JoinSplit(s, ',');
      Text.JoinSplit(words[0] + Render(ws, gaps), ',');
      assert IsList(s, words, gaps);
    }
    if words, gaps :| IsList(s, words, gaps) {
      SplitRecoversWords(s, words, gaps);
    }
  }

  // ----- literal characters -----

  /** Letters and digits by their code points, the hyphen and the underscore. */
  predicate NameCode(n: int) {
    48 <= n <= 57 || 65 <= n <= 90 || 97 <= n <= 122 || n == 45 || n == 95
  }

  lemma WordCharactersAre(c: char)
    ensures IsWordChar(c) <==> NameCode(c as int)
  {
  }

  /** The texts of one character that are accepted. */
  lemma OneCharacterNames(c: char)
    ensures Accepts(ProfileRegex(), [c]) <==> NameCode(c as int)
  {
    MatchesIsPattern([c]);
    hide Accepts, ProfileRegex, NameCode;
    WordCharactersAre(c);
    if c == ',' {
      assert [c] == "" + [','] + "";
      Text.SplitAppend("", "", ',');
      Text.SplitOne("", ',');
    } else {
      Text.SplitOne([c], ',');
    }
  }

  /** What may stand between a comma and the next name: a blank, or more of the name. */
  lemma CharacterBehindComma(c: char)
    ensures Accepts(ProfileRegex(), "a," + [c] + "b") <==> NameCode(c as int) || c in " \t\n\U{0C}\r"
  {
    MatchesIsPattern("a," + [c] + "b");
    PieceOfTwo(c);
    SplitBehindComma(c);
    assert IsWord("a") && !IsPiece("");
    hide Accepts, ProfileRegex, NameCode, Text.Split, IsPiece, IsWord;
    var pieces := Text.Split("a," + [c] + "b", ',');
    if c == ',' {
      assert pieces[1] == "";
    } else {
      assert pieces[0] == "a" && pieces[1] == [c] + "b";
    }
  }

  lemma SplitBehindComma(c: char)
    ensures Text.Split("a," + [c] + "b", ',') == if c == ',' then ["a"] + ["", "b"] else ["a"] + [[c] + "b"]
  {
    hide Text.Split;
    var piece := [c] + "b";
    assert "a," + [c] + "b" == "a" + [','] + piece;
    Text.SplitAppend("a", piece, ',');
    Text.SplitOne("a", ',');
    if c == ',' {
      assert piece == "" + [','] + "b";
      Text.SplitAppend("", "b", ',');
      Text.SplitOne("", ',');
      Text.SplitOne("b", ',');
    } else {
      Text.SplitOne(piece, ',');
    }
  }

  lemma PieceOfTwo(c: char)
    ensures c != ',' && IsPiece([c] + "b") <==> NameCode(c as int) || c in " \t\n\U{0C}\r"
  {
    var piece := [c] + "b";
    WordCharactersAre(c);
    assert piece[0..] == piece && piece[1..] == "b";
    assert IsWord("b") && IsPieceFrom(piece, 1);
    assert IsWord(piece) <==> IsWordChar(c) by {
      assert piece[0] == c && piece[1] == 'b';
    }
  }
}

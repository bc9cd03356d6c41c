/**
 The operations of Go's `strings` package that the configuration code uses, on texts
 seen as sequences of code points.
 */
module Text {
  /** The first position of `c` from `i` on, or -1. */
  function IndexFrom(s: string, c: char, i: nat): (r: int)
    requires i <= |s|
    ensures r == -1 || i <= r < |s|
    decreases |s| - i
  {
    if i == |s| then -1 else if s[i] == c then i else IndexFrom(s, c, i + 1)
  }

  /** `strings.IndexByte`. */
  function IndexOf(s: string, c: char): (r: int)
    ensures -1 <= r < |s|
  {
    IndexFrom(s, c, 0)
  }

  lemma {:induction false} IndexFromSpec(s: string, c: char, i: nat)
    requires i <= |s|
    ensures var r := IndexFrom(s, c, i);
            && (r < 0 <==> forall k :: i <= k < |s| ==> s[k] != c)
            && (r >= 0 ==> s[r] == c && forall k :: i <= k < r ==> s[k] != c)
    decreases |s| - i
  {
    if i < |s| && s[i] != c {
      IndexFromSpec(s, c, i + 1);
    }
  }

  lemma IndexOfSpec(s: string, c: char)
    ensures IndexOf(s, c) < 0 <==> c !in s
    ensures IndexOf(s, c) >= 0 ==> s[IndexOf(s, c)] == c
    ensures forall k :: 0 <= k < IndexOf(s, c) ==> s[k] != c
  {
    IndexFromSpec(s, c, 0);
  }

  /** The first position is the only one with no earlier occurrence. */
  lemma IndexOfIs(s: string, c: char, i: nat)
    requires i < |s| && s[i] == c && forall k :: 0 <= k < i ==> s[k] != c
    ensures IndexOf(s, c) == i
  {
    IndexFromSpec(s, c, 0);
  }

  /** `strings.Split` on a one-character separator. */
  function Split(s: string, sep: char): (r: seq<string>)
    ensures |r| >= 1
    decreases |s|
  {
    var i := IndexOf(s, sep);
    if i < 0 then [s] else [s[..i]] + Split(s[i + 1..], sep)
  }

  lemma SplitOne(s: string, sep: char)
    requires sep !in s
    ensures Split(s, sep) == [s]
  {
    IndexOfSpec(s, sep);
  }

  lemma {:induction false} SplitPieces(s: string, sep: char)
    ensures forall p :: p in Split(s, sep) ==> sep !in p
    decreases |s|
  {
    var i := IndexOf(s, sep);
    IndexOfSpec(s, sep);
    if i >= 0 {
      SplitPieces(s[i + 1..], sep);
      assert sep !in s[..i];
    }
  }

  function Join(parts: seq<string>, sep: char): string {
    if parts == [] then ""
    else if |parts| == 1 then parts[0]
    else parts[0] + [sep] + Join(parts[1..], sep)
  }

  lemma JoinCons(p: string, parts: seq<string>, sep: char)
    requires parts != []
    ensures Join([p] + parts, sep) == p + [sep] + Join(parts, sep)
  {
  }

  lemma {:induction false} JoinSplit(s: string, sep: char)
    ensures Join(Split(s, sep), sep) == s
    decreases |s|
  {
    var i := IndexOf(s, sep);
    hide IndexOf;
    IndexOfSpec(s, sep);
    if i >= 0 {
      var rest := s[i + 1..];
      JoinSplit(rest, sep);
      JoinCons(s[..i], Split(rest, sep), sep);
      assert Split(s, sep) == [s[..i]] + Split(rest, sep);
      hide Split, Join;
      assert s == s[..i] + [sep] + rest;
    }
  }

  /** Splitting at a separator that is known to be there. */
  lemma {:induction false} SplitAppend(a: string, b: string, sep: char)
    ensures Split(a + [sep] + b, sep) == Split(a, sep) + Split(b, sep)
    decreases |a|
  {
    var whole := a + [sep] + b;
    var i := IndexOf(a, sep);
    IndexOfSpec(a, sep);
    if i < 0 {
      assert whole[..|a|] == a && whole[|a| + 1..] == b;
      IndexOfIs(whole, sep, |a|);
    } else {
      assert whole[..i] == a[..i];
      IndexOfIs(whole, sep, i);
      var rest := a[i + 1..];
      assert whole[i + 1..] == rest + [sep] + b;
      SplitAppend(rest, b, sep);
      assert [a[..i]] + (Split(rest, sep) + Split(b, sep)) == ([a[..i]] + Split(rest, sep)) + Split(b, sep);
    }
  }

  lemma {:induction false} SplitJoin(parts: seq<string>, sep: char)
    requires |parts| >= 1
    requires forall p :: p in parts ==> sep !in p
    ensures Split(Join(parts, sep), sep) == parts
  {
    var first, rest := parts[0], parts[1..];
    assert first in parts;
    SplitOne(first, sep);
    if |parts| > 1 {
      SplitJoin(rest, sep);
      SplitAppend(first, Join(rest, sep), sep);
    }
    assert parts == [first] + rest;
  }

  /** `unicode.IsSpace`. */
  predicate IsSpace(c: char) {
    || c == ' ' || '\t' <= c <= '\r' || c == '\U{85}' || c == '\U{A0}' || c == '\U{1680}'
    || '\U{2000}' <= c <= '\U{200A}'
    || c == '\U{2028}' || c == '\U{2029}' || c == '\U{202F}' || c == '\U{205F}' || c == '\U{3000}'
  }

  /** The first position from `i` on that is not blank. */
  function SkipBlanks(s: string, i: nat): (r: nat)
    requires i <= |s|
    ensures i <= r <= |s|
    decreases |s| - i
  {
    if i < |s| && IsSpace(s[i]) then SkipBlanks(s, i + 1) else i
  }

  /** The length of `s[..n]` without its trailing blanks. */
  function DropBlanks(s: string, n: nat): (r: nat)
    requires n <= |s|
    ensures r <= n
  {
    if n > 0 && IsSpace(s[n - 1]) then DropBlanks(s, n - 1) else n
  }

  /** `strings.TrimSpace`. */
  function Trim(s: string): string {
    var i, j := SkipBlanks(s, 0), DropBlanks(s, |s|);
    if i < j then s[i..j] else ""
  }

  predicate NoOuterBlank(s: string) {
    |s| == 0 || (!IsSpace(s[0]) && !IsSpace(s[|s| - 1]))
  }

  lemma {:induction false} SkipBlanksSpec(s: string, i: nat)
    requires i <= |s|
    ensures var r := SkipBlanks(s, i);
            (forall k :: i <= k < r ==> IsSpace(s[k])) && (r < |s| ==> !IsSpace(s[r]))
    decreases |s| - i
  {
    if i < |s| && IsSpace(s[i]) {
      SkipBlanksSpec(s, i + 1);
    }
  }

  lemma {:induction false} DropBlanksSpec(s: string, n: nat)
    requires n <= |s|
    ensures var r := DropBlanks(s, n);
            (forall k :: r <= k < n ==> IsSpace(s[k])) && (r > 0 ==> !IsSpace(s[r - 1]))
  {
    if n > 0 && IsSpace(s[n - 1]) {
      DropBlanksSpec(s, n - 1);
    }
  }

  /** Trimming removes blanks in front of and behind a text that has none of its own. */
  lemma TrimIs(left: string, s: string, right: string)
    requires NoOuterBlank(s)
    requires forall c :: c in left || c in right ==> IsSpace(c)
    ensures Trim(left + s + right) == s
  {
    var t := left + s + right;
    var n := |left| + |s|;
    assert forall k :: 0 <= k < |left| ==> t[k] == left[k] && IsSpace(t[k]);
    assert forall k :: n <= k < |t| ==> t[k] == right[k - n] && IsSpace(t[k]);
    if |s| > 0 {
      assert t[|left|] == s[0] && t[n - 1] == s[|s| - 1];
      SkipBlanksSpec(t, 0);
      DropBlanksSpec(t, |t|);
      assert SkipBlanks(t, 0) == |left| && DropBlanks(t, |t|) == n;
      assert t[|left|..n] == s;
    } else {
      SkipBlanksSpec(t, 0);
      assert SkipBlanks(t, 0) == |t|;
    }
  }

  /** The blanks of ASCII, and two more. */
  const BLANKS := " \t\n\U{0B}\U{0C}\r\U{85}\U{A0}"

  /** Blanks of these are removed from around a text that begins and ends visibly. */
  lemma TrimDropsBlanks(left: string, s: string, right: string)
    requires |s| > 0 && '!' <= s[0] <= '~' && '!' <= s[|s| - 1] <= '~'
    requires forall c :: c in left || c in right ==> c in BLANKS
    ensures Trim(left + s + right) == s
  {
    TrimIs(left, s, right);
  }

  lemma TrimKeepsPlain(s: string)
    requires NoOuterBlank(s)
    ensures Trim(s) == s
  {
  }

  /** Trimming yields a slice of the text without outer blanks, and is idempotent. */
  lemma TrimTwice(s: string)
    ensures NoOuterBlank(Trim(s))
    ensures forall c :: c in Trim(s) ==> c in s
    ensures Trim(Trim(s)) == Trim(s)
  {
    SkipBlanksSpec(s, 0);
    DropBlanksSpec(s, |s|);
    TrimKeepsPlain(Trim(s));
  }

  /** The first `n` characters without `c`. */
  function RemoveTo(s: string, c: char, n: nat): string
    requires n <= |s|
  {
    if n == 0 then "" else RemoveTo(s, c, n - 1) + if s[n - 1] == c then "" else [s[n - 1]]
  }

  /** `strings.ReplaceAll(s, c, "")`. */
  function Remove(s: string, c: char): string {
    RemoveTo(s, c, |s|)
  }

  lemma RemoveOne(d: char, c: char)
    ensures Remove([d], c) == if d == c then "" else [d]
  {
    assert RemoveTo([d], c, 0) == "";
  }

  lemma {:induction false} RemoveToSpec(s: string, c: char, n: nat)
    requires n <= |s|
    ensures forall d :: d in RemoveTo(s, c, n) <==> d in s[..n] && d != c
    ensures c !in s[..n] ==> RemoveTo(s, c, n) == s[..n]
  {
    if n > 0 {
      RemoveToSpec(s, c, n - 1);
      assert s[..n] == s[..n - 1] + [s[n - 1]];
    }
  }

  lemma RemoveSpec(s: string, c: char)
    ensures forall d :: d in Remove(s, c) <==> d in s && d != c
    ensures c !in s ==> Remove(s, c) == s
  {
    RemoveToSpec(s, c, |s|);
    assert s[..|s|] == s;
  }

  lemma {:induction false} RemoveAppendTo(s: string, t: string, c: char, n: nat)
    requires n <= |t|
    ensures RemoveTo(s + t, c, |s| + n) == Remove(s, c) + RemoveTo(t, c, n)
  {
    if n == 0 {
      RemovePrefix(s, t, c, |s|);
    } else {
      RemoveAppendTo(s, t, c, n - 1);
    }
  }

  lemma {:induction false} RemovePrefix(s: string, t: string, c: char, n: nat)
    requires n <= |s|
    ensures RemoveTo(s + t, c, n) == RemoveTo(s, c, n)
  {
    if n > 0 {
      RemovePrefix(s, t, c, n - 1);
    }
  }

  lemma RemoveAppend(s: string, t: string, c: char)
    ensures Remove(s + t, c) == Remove(s, c) + Remove(t, c)
  {
    RemoveAppendTo(s, t, c, |t|);
  }

  predicate LessFrom(a: string, b: string, i: nat)
    requires i <= |a| && i <= |b|
    decreases |a| - i
  {
    if i == |b| then false
    else if i == |a| then true
    else if a[i] != b[i] then a[i] < b[i]
    else LessFrom(a, b, i + 1)
  }

  /** Go's `<` on strings: lexicographic by code point. */
  predicate Less(a: string, b: string) {
    LessFrom(a, b, 0)
  }

  /** The texts agree in front of position `d`, and there `a` has ended or has the smaller character. */
  ghost predicate SmallerAt(a: string, b: string, d: nat) {
    && d <= |a| && d < |b| && (forall k :: 0 <= k < d ==> a[k] == b[k])
    && (d < |a| ==> a[d] < b[d])
  }

  lemma {:induction false} LessFromIsFirstDifference(a: string, b: string, i: nat)
    requires i <= |a| && i <= |b| && forall k :: 0 <= k < i ==> a[k] == b[k]
    ensures LessFrom(a, b, i) <==> exists d: nat :: i <= d && SmallerAt(a, b, d)
    decreases |a| - i
  {
    if i < |a| && i < |b| && a[i] == b[i] {
      LessFromIsFirstDifference(a, b, i + 1);
    } else if i < |b| && (i == |a| || a[i] < b[i]) {
      assert SmallerAt(a, b, i);
    }
  }

  /** The first difference decides. */
  lemma LessIsFirstDifference(a: string, b: string)
    ensures Less(a, b) <==> exists d: nat :: SmallerAt(a, b, d)
  {
    LessFromIsFirstDifference(a, b, 0);
  }

  lemma {:induction false} LessFromIsTotal(a: string, b: string, i: nat)
    requires i <= |a| && i <= |b| && forall k :: 0 <= k < i ==> a[k] == b[k]
    ensures LessFrom(a, b, i) ==> !LessFrom(b, a, i)
    ensures LessFrom(a, b, i) || LessFrom(b, a, i) || a == b
    decreases |a| - i
  {
    if i < |a| && i < |b| && a[i] == b[i] {
      LessFromIsTotal(a, b, i + 1);
    }
  }

  lemma LessIsTotal(a: string, b: string)
    ensures !Less(a, a)
    ensures Less(a, b) ==> !Less(b, a)
    ensures Less(a, b) || Less(b, a) || a == b
  {
    LessFromIsTotal(a, b, 0);
    LessFromIsTotal(a, a, 0);
  }

  lemma {:induction false} LessFromIsTransitive(a: string, b: string, c: string, i: nat)
    requires i <= |a| && i <= |b| && i <= |c|
    requires LessFrom(a, b, i) && LessFrom(b, c, i)
    ensures LessFrom(a, c, i)
    decreases |a| - i
  {
    if i < |a| && a[i] == b[i] && b[i] == c[i] {
      LessFromIsTransitive(a, b, c, i + 1);
    }
  }

  lemma LessIsTransitive(a: string, b: string, c: string)
    requires Less(a, b) && Less(b, c)
    ensures Less(a, c)
  {
    LessFromIsTransitive(a, b, c, 0);
  }
}

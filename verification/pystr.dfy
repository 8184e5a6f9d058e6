/** The parts of Python's `str` semantics that the scripts rely on. A Dafny
    `char` is one Unicode scalar value, as an element of a Python `str` is one
    code point, so lengths, indices and slices agree with Python's. */
module PyStr {
  import opened Wrappers

  /** The characters for which Python's `c.isspace()` holds. */
  const SpaceChars: set<char> := {
    '\t', '\n', '\U{0B}', '\U{0C}', '\r', '\U{1C}', '\U{1D}', '\U{1E}', '\U{1F}', ' ',
    '\U{85}', '\U{A0}', '\U{1680}',
    '\U{2000}', '\U{2001}', '\U{2002}', '\U{2003}', '\U{2004}', '\U{2005}',
    '\U{2006}', '\U{2007}', '\U{2008}', '\U{2009}', '\U{200A}',
    '\U{2028}', '\U{2029}', '\U{202F}', '\U{205F}', '\U{3000}'
  }

  /** `c.isspace()`: the characters that `str.split()` and `str.strip()`
      (both without arguments) treat as whitespace. */
  predicate IsSpace(c: char) {
    c in SpaceChars
  }

  // ---------------------------------------------------------------------------
  // Substring search: `m in s`, `s.find(m)`, `s.split(sep)[0]`, `s.split(sep)[1]`
  // ---------------------------------------------------------------------------

  /** `m` occurs in `s` starting at index `i`. */
  predicate OccursAt(s: string, m: string, i: nat) {
    i + |m| <= |s| && s[i..i + |m|] == m
  }

  /** `s.find(m, i)` as an option: the first index at or after `i` where `m` occurs. */
  function FindFrom(s: string, m: string, i: nat): (r: Option<nat>)
    ensures r.Some? ==> i <= r.value && OccursAt(s, m, r.value)
    ensures r.Some? ==> forall j :: i <= j < r.value ==> !OccursAt(s, m, j)
    ensures r.None? ==> forall j: nat :: i <= j ==> !OccursAt(s, m, j)
    decreases |s| - i
  {
    if i + |m| > |s| then None
    else if s[i..i + |m|] == m then Some(i)
    else FindFrom(s, m, i + 1)
  }

  /** `s.find(m)` as an option: the first index where `m` occurs. */
  function Find(s: string, m: string): (r: Option<nat>)
    ensures r.Some? ==> OccursAt(s, m, r.value)
    ensures r.Some? ==> forall j :: 0 <= j < r.value ==> !OccursAt(s, m, j)
    ensures r.None? ==> forall j: nat :: !OccursAt(s, m, j)
  {
    FindFrom(s, m, 0)
  }

  /** Python's `m in s`. */
  predicate Contains(s: string, m: string) {
    Find(s, m).Some?
  }

  lemma OccursThenContains(s: string, m: string, i: nat)
    requires OccursAt(s, m, i)
    ensures Contains(s, m) && Find(s, m).value <= i
  {
  }

  /** An occurrence inside a prefix of `s` is an occurrence in `s`. */
  lemma PrefixOccurrence(s: string, m: string, n: nat, k: nat)
    requires n <= |s| && OccursAt(s[..n], m, k)
    ensures OccursAt(s, m, k) && k + |m| <= n
  {
    assert s[..n][k..k + |m|] == s[k..k + |m|];
  }

  /** An occurrence inside a suffix of `s` is an occurrence in `s`. */
  lemma SuffixOccurrence(s: string, m: string, n: nat, k: nat)
    requires n <= |s| && OccursAt(s[n..], m, k)
    ensures OccursAt(s, m, n + k)
  {
    assert s[n..][k..k + |m|] == s[n + k..n + k + |m|];
  }

  /** `s.split(sep)[0]`: everything before the first `sep`, or all of `s`. */
  function SplitHead(s: string, sep: string): (r: string)
    requires sep != []
    ensures r <= s && !Contains(r, sep)
    ensures Contains(s, sep) ==> OccursAt(s, sep, |r|) && Find(s, sep) == Some(|r|)
    ensures !Contains(s, sep) ==> r == s
  {
    match Find(s, sep)
    case Some(j) =>
      var r := s[..j];
      assert !Contains(r, sep) by {
        if Contains(r, sep) {
          PrefixOccurrence(s, sep, j, Find(r, sep).value);
        }
      }
      r
    case None => s
  }

  /** `s.split(sep)[1]`, which the scripts call only after checking `sep in s`:
      the text between the first and the second `sep`, or the end of `s`. */
  function SplitSecond(s: string, sep: string): (r: string)
    requires sep != [] && Contains(s, sep)
    ensures !Contains(r, sep)
    ensures Find(s, sep).value + |sep| + |r| <= |s|
    ensures r <= s[Find(s, sep).value + |sep|..]
  {
    var j := Find(s, sep).value;
    SplitHead(s[j + |sep|..], sep)
  }

  /** An occurrence in a piece of `s` is an occurrence in `s`. */
  lemma SliceContains(s: string, m: string, i: nat, j: nat)
    requires i <= j <= |s| && Contains(s[i..j], m)
    ensures Contains(s, m)
  {
    var k := Find(s[i..j], m).value;
    assert s[..j][i..] == s[i..j];
    SuffixOccurrence(s[..j], m, i, k);
    PrefixOccurrence(s, m, j, i + k);
    OccursThenContains(s, m, i + k);
  }

  /** A piece of a text without `m` has no `m` either. */
  lemma SliceNotContains(s: string, m: string, i: nat, j: nat)
    requires i <= j <= |s| && !Contains(s, m)
    ensures !Contains(s[i..j], m)
  {
    if Contains(s[i..j], m) {
      SliceContains(s, m, i, j);
    }
  }

  /** The pieces `split` and `strip` cut out of a text without `m` have no `m`. */
  lemma SplitHeadKeepsAbsent(s: string, sep: string, m: string)
    requires sep != [] && !Contains(s, m)
    ensures !Contains(SplitHead(s, sep), m)
  {
    var r := SplitHead(s, sep);
    assert r == s[0..|r|];
    SliceNotContains(s, m, 0, |r|);
  }

  lemma SplitSecondKeepsAbsent(s: string, sep: string, m: string)
    requires sep != [] && Contains(s, sep) && !Contains(s, m)
    ensures !Contains(SplitSecond(s, sep), m)
  {
    var j := Find(s, sep).value + |sep|;
    SliceNotContains(s, m, j, |s|);
    assert s[j..] == s[j..|s|];
    SplitHeadKeepsAbsent(s[j..], sep, m);
  }

  lemma StripKeepsAbsent(s: string, m: string)
    requires !Contains(s, m)
    ensures !Contains(Strip(s), m)
  {
    var a := SpaceRun(s);
    SliceNotContains(s, m, a, a + |Strip(s)|);
  }

  /** The first character of `m` appears nowhere else in `m`. Such a marker
      cannot start inside a text and run on into a following copy of its own
      first character. */
  predicate HeadUnique(m: string) {
    m != [] && forall k :: 0 < k < |m| ==> m[k] != m[0]
  }

  /** When `a` does not contain `m` and every character of `m` but its first
      differs from `t[0]`, no occurrence of `m` in `a + t` starts inside `a`. */
  lemma NoOccurrenceBefore(a: string, t: string, m: string)
    requires m != [] && t != [] && !Contains(a, m)
    requires forall k :: 0 < k < |m| ==> m[k] != t[0]
    ensures forall p: nat :: p < |a| ==> !OccursAt(a + t, m, p)
  {
    var s := a + t;
    forall p: nat | p < |a|
      ensures !OccursAt(s, m, p)
    {
      if p + |m| <= |a| {
        assert s[p..p + |m|] == a[p..p + |m|];
        assert !OccursAt(a, m, p);
      } else {
        assert p + |m| <= |s| ==> s[p..p + |m|][|a| - p] == t[0];
      }
    }
  }

  /** With a marker whose first character is unique, the first occurrence of
      `m` in `a + m + b` is the one placed after `a`. */
  lemma FindPlaced(a: string, m: string, b: string)
    requires HeadUnique(m) && !Contains(a, m)
    ensures Find(a + m + b, m) == Some(|a|)
  {
    var s := a + m + b;
    assert s == a + (m + b);
    NoOccurrenceBefore(a, m + b, m);
    assert s[|a|..|a| + |m|] == m;
    OccursThenContains(s, m, |a|);
  }

  // ---------------------------------------------------------------------------
  // Whitespace: `s.strip()`, `s.split()`, `" ".join(words)`
  // ---------------------------------------------------------------------------

  /** Number of leading whitespace characters of `s`. */
  function SpaceRun(s: string): (n: nat)
    ensures n <= |s| && (n == |s| || !IsSpace(s[n]))
  {
    if s == [] || !IsSpace(s[0]) then 0 else 1 + SpaceRun(s[1..])
  }

  /** Number of leading non-whitespace characters of `s`. */
  function WordRun(s: string): (n: nat)
    ensures n <= |s| && (n == |s| || IsSpace(s[n]))
    ensures s != [] && !IsSpace(s[0]) ==> n > 0
  {
    if s == [] || IsSpace(s[0]) then 0 else 1 + WordRun(s[1..])
  }

  /** Number of trailing whitespace characters of `s`. */
  function TrailRun(s: string): (n: nat)
    ensures n <= |s| && (n == |s| || !IsSpace(s[|s| - n - 1]))
  {
    if s == [] || !IsSpace(s[|s| - 1]) then 0 else 1 + TrailRun(s[..|s| - 1])
  }

  /** The characters `SpaceRun` counts are whitespace. */
  lemma {:induction false} SpaceRunFacts(s: string)
    ensures forall i :: 0 <= i < SpaceRun(s) ==> IsSpace(s[i])
  {
    if s != [] && IsSpace(s[0]) {
      SpaceRunFacts(s[1..]);
    }
  }

  /** The characters `WordRun` counts are not whitespace. */
  lemma {:induction false} WordRunFacts(s: string)
    ensures forall i :: 0 <= i < WordRun(s) ==> !IsSpace(s[i])
  {
    if s != [] && !IsSpace(s[0]) {
      WordRunFacts(s[1..]);
    }
  }

  /** The characters `TrailRun` counts are whitespace. */
  lemma {:induction false} TrailRunFacts(s: string)
    ensures forall i :: |s| - TrailRun(s) <= i < |s| ==> IsSpace(s[i])
  {
    if s != [] && IsSpace(s[|s| - 1]) {
      TrailRunFacts(s[..|s| - 1]);
    }
  }

  /** `s.strip()`: `s` without its leading and trailing whitespace. */
  function Strip(s: string): (r: string)
    ensures r == [] || (!IsSpace(r[0]) && !IsSpace(r[|r| - 1]))
    ensures |r| <= |s| && SpaceRun(s) + |r| <= |s| && r == s[SpaceRun(s)..SpaceRun(s) + |r|]
  {
    var a := SpaceRun(s);
    var t := s[a..];
    t[..|t| - TrailRun(t)]
  }

  /** `s.strip()` is empty exactly when `s` is all whitespace. */
  lemma StripEmpty(s: string)
    ensures Strip(s) == [] <==> forall i :: 0 <= i < |s| ==> IsSpace(s[i])
  {
    var a := SpaceRun(s);
    var t := s[a..];
    SpaceRunFacts(s);
    TrailRunFacts(t);
    if Strip(s) == [] {
      assert a == |s|;
    }
  }

  /** A word of `str.split()`: non-empty, without whitespace. */
  predicate IsWord(w: string) {
    w != [] && forall i :: 0 <= i < |w| ==> !IsSpace(w[i])
  }

  /** The first word of a text that is not all whitespace. */
  function FirstWord(s: string): string
    requires SpaceRun(s) < |s|
  {
    var t := s[SpaceRun(s)..];
    t[..WordRun(t)]
  }

  /** What follows the first word of a text that is not all whitespace. */
  function AfterFirstWord(s: string): (r: string)
    requires SpaceRun(s) < |s|
    ensures |r| < |s|
  {
    var t := s[SpaceRun(s)..];
    assert t[0] == s[SpaceRun(s)];
    t[WordRun(t)..]
  }

  /** `s.split()`: the maximal runs of non-whitespace characters, in order. */
  function Words(s: string): seq<string>
    decreases |s|
  {
    if SpaceRun(s) == |s| then [] else [FirstWord(s)] + Words(AfterFirstWord(s))
  }

  /** `" ".join(ws)`. */
  function JoinSpace(ws: seq<string>): string {
    if |ws| == 0 then ""
    else if |ws| == 1 then ws[0]
    else ws[0] + " " + JoinSpace(ws[1..])
  }

  /** The characters of `s` that are not whitespace, in order. */
  function NonSpace(s: string): string {
    if s == [] then ""
    else if IsSpace(s[0]) then NonSpace(s[1..])
    else [s[0]] + NonSpace(s[1..])
  }

  function Concat(ws: seq<string>): string {
    if ws == [] then "" else ws[0] + Concat(ws[1..])
  }

  lemma {:induction false} NonSpaceAppend(a: string, b: string)
    ensures NonSpace(a + b) == NonSpace(a) + NonSpace(b)
  {
    if a == [] {
      assert a + b == b;
    } else {
      assert (a + b)[1..] == a[1..] + b;
      NonSpaceAppend(a[1..], b);
    }
  }

  lemma {:induction false} NonSpaceOfWord(w: string)
    requires forall i :: 0 <= i < |w| ==> !IsSpace(w[i])
    ensures NonSpace(w) == w
  {
    if w != [] {
      NonSpaceOfWord(w[1..]);
    }
  }

  lemma {:induction false} NonSpaceAllSpace(s: string)
    requires forall i :: 0 <= i < |s| ==> IsSpace(s[i])
    ensures NonSpace(s) == ""
  {
    if s != [] {
      NonSpaceAllSpace(s[1..]);
    }
  }

  /** Leading whitespace contributes nothing to the non-space text. */
  lemma SkipSpaceRun(s: string)
    ensures NonSpace(s) == NonSpace(s[SpaceRun(s)..])
  {
    var a := SpaceRun(s);
    SpaceRunFacts(s);
    assert s == s[..a] + s[a..];
    NonSpaceAppend(s[..a], s[a..]);
    NonSpaceAllSpace(s[..a]);
  }

  /** A leading word contributes itself to the non-space text. */
  lemma SkipWordRun(t: string)
    ensures NonSpace(t) == t[..WordRun(t)] + NonSpace(t[WordRun(t)..])
  {
    var n := WordRun(t);
    WordRunFacts(t);
    assert t == t[..n] + t[n..];
    NonSpaceAppend(t[..n], t[n..]);
    NonSpaceOfWord(t[..n]);
  }

  /** The first word is a word. */
  lemma FirstWordIsWord(s: string)
    requires SpaceRun(s) < |s|
    ensures IsWord(FirstWord(s))
  {
    var t := s[SpaceRun(s)..];
    assert t[0] == s[SpaceRun(s)];
    WordRunFacts(t);
  }

  /** Every piece of `s.split()` is a word. */
  lemma {:induction false} WordsAreWords(s: string)
    ensures forall k :: 0 <= k < |Words(s)| ==> IsWord(Words(s)[k])
    decreases |s|
  {
    if SpaceRun(s) < |s| {
      var rest := AfterFirstWord(s);
      FirstWordIsWord(s);
      WordsAreWords(rest);
      var ws := Words(s);
      assert ws == [FirstWord(s)] + Words(rest);
      forall k | 0 <= k < |ws|
        ensures IsWord(ws[k])
      {
        if k > 0 {
          assert ws[k] == Words(rest)[k - 1];
        }
      }
    }
  }

  /** `s.split()` keeps every non-whitespace character, in order. */
  lemma {:induction false} WordsKeepText(s: string)
    ensures Concat(Words(s)) == NonSpace(s)
    decreases |s|
  {
    SkipSpaceRun(s);
    if SpaceRun(s) < |s| {
      var t := s[SpaceRun(s)..];
      SkipWordRun(t);
      var rest := AfterFirstWord(s);
      WordsKeepText(rest);
      var ws := Words(s);
      assert ws == [FirstWord(s)] + Words(rest);
      assert ws[0] == FirstWord(s) && ws[1..] == Words(rest);
    }
  }

  /** `" ".join(ws)` loses no character of the words and adds only spaces. */
  lemma {:induction false} JoinKeepsText(ws: seq<string>)
    requires forall k :: 0 <= k < |ws| ==> IsWord(ws[k])
    ensures NonSpace(JoinSpace(ws)) == Concat(ws)
  {
    if |ws| == 1 {
      NonSpaceOfWord(ws[0]);
      assert Concat(ws) == ws[0] + Concat([]);
    } else if |ws| > 1 {
      JoinKeepsText(ws[1..]);
      NonSpaceAppend(ws[0] + " ", JoinSpace(ws[1..]));
      NonSpaceAppend(ws[0], " ");
      NonSpaceOfWord(ws[0]);
      assert NonSpace(" ") == "";
    }
  }

  lemma {:induction false} WordRunOfJoin(w: string, rest: string)
    requires forall i :: 0 <= i < |w| ==> !IsSpace(w[i])
    requires rest == [] || IsSpace(rest[0])
    ensures WordRun(w + rest) == |w|
  {
    if w != [] {
      assert (w + rest)[1..] == w[1..] + rest;
      WordRunOfJoin(w[1..], rest);
    }
  }

  /** The leading whitespace of a text does not change its first word. */
  lemma FirstWordAfterSpace(s: string)
    ensures var u := s[SpaceRun(s)..];
      SpaceRun(u) == 0 &&
      (SpaceRun(s) < |s| ==> FirstWord(u) == FirstWord(s) && AfterFirstWord(u) == AfterFirstWord(s))
  {
    var u := s[SpaceRun(s)..];
    if u != [] {
      assert u[0] == s[SpaceRun(s)];
    }
    assert u[0..] == u;
  }

  /** Leading whitespace does not change `s.split()`. */
  lemma WordsAfterSpace(s: string)
    ensures Words(s) == Words(s[SpaceRun(s)..])
  {
    FirstWordAfterSpace(s);
  }

  /** A leading whitespace character does not change `s.split()`. */
  lemma WordsSkipSpace(c: char, s: string)
    requires IsSpace(c)
    ensures Words([c] + s) == Words(s)
  {
    var t := [c] + s;
    var a := SpaceRun(s);
    assert SpaceRun(t) == a + 1 by {
      assert t[1..] == s;
    }
    assert t[a + 1..] == s[a..];
    WordsAfterSpace(s);
    WordsAfterSpace(t);
  }

  /** A word followed by whitespace or nothing is the first word of `s.split()`. */
  lemma {:induction false} WordsOfWordThen(w: string, rest: string)
    requires IsWord(w)
    requires rest == [] || IsSpace(rest[0])
    ensures Words(w + rest) == [w] + Words(rest)
  {
    var s := w + rest;
    WordRunOfJoin(w, rest);
    assert SpaceRun(s) == 0;
    assert s[0..] == s;
    assert FirstWord(s) == w;
    assert AfterFirstWord(s) == rest;
  }

  /** Splitting words joined by single spaces gives the words back. */
  lemma {:induction false} WordsOfJoin(ws: seq<string>)
    requires forall k :: 0 <= k < |ws| ==> IsWord(ws[k])
    ensures Words(JoinSpace(ws)) == ws
  {
    if |ws| == 1 {
      WordsOfWordThen(ws[0], "");
      assert ws[0] + "" == ws[0];
    } else if |ws| > 1 {
      WordsOfJoin(ws[1..]);
      WordsOfWordSpace(ws[0], JoinSpace(ws[1..]));
      assert [ws[0]] + ws[1..] == ws;
    }
  }

  /** A word and a space in front of a text add that word to its `split()`. */
  lemma WordsOfWordSpace(w: string, j: string)
    requires IsWord(w)
    ensures Words(w + " " + j) == [w] + Words(j)
  {
    assert w + " " + j == w + ([' '] + j);
    WordsOfWordThen(w, [' '] + j);
    WordsSkipSpace(' ', j);
  }

  /** Text made of single-space-separated words: no whitespace at either end,
      no whitespace other than ' ', and never two in a row. */
  predicate IsNormalized(r: string) {
    forall i :: 0 <= i < |r| && IsSpace(r[i]) ==>
      r[i] == ' ' && 0 < i < |r| - 1 && !IsSpace(r[i - 1]) && !IsSpace(r[i + 1])
  }

  lemma {:induction false} JoinIsNormalized(ws: seq<string>)
    requires forall k :: 0 <= k < |ws| ==> IsWord(ws[k])
    ensures IsNormalized(JoinSpace(ws))
    ensures |ws| > 0 ==> JoinSpace(ws) != []
  {
    if |ws| > 1 {
      var w := ws[0];
      var j := JoinSpace(ws[1..]);
      JoinIsNormalized(ws[1..]);
      var s := w + " " + j;
      forall i | 0 <= i < |s| && IsSpace(s[i])
        ensures s[i] == ' ' && 0 < i < |s| - 1 && !IsSpace(s[i - 1]) && !IsSpace(s[i + 1])
      {
        if i > |w| {
          assert s[i] == j[i - |w| - 1];
          assert s[i - 1] == j[i - |w| - 2];
          assert s[i + 1] == j[i - |w|];
        }
      }
    }
  }

  /** What follows a space of normalised text is normalised. */
  lemma NormalizedTail(s: string, i: nat)
    requires IsNormalized(s) && i < |s| && IsSpace(s[i])
    ensures IsNormalized(s[i + 1..])
  {
    var rest := s[i + 1..];
    forall j | 0 <= j < |rest| && IsSpace(rest[j])
      ensures rest[j] == ' ' && 0 < j < |rest| - 1 && !IsSpace(rest[j - 1]) && !IsSpace(rest[j + 1])
    {
      assert rest[j] == s[i + 1 + j];
      assert j > 0;
      assert rest[j - 1] == s[i + j] && rest[j + 1] == s[i + 2 + j];
    }
  }

  /** Normalised text with a space is its first word, a space and a
      normalised text starting with a word. */
  lemma NormalizedBreak(s: string)
    requires IsNormalized(s) && WordRun(s) < |s|
    ensures var i := WordRun(s);
      0 < i < |s| - 1 && IsWord(s[..i]) && s == s[..i] + " " + s[i + 1..] &&
      IsNormalized(s[i + 1..]) && SpaceRun(s[i + 1..]) == 0 < |s[i + 1..]|
  {
    var i := WordRun(s);
    WordRunFacts(s);
    assert s[i] == ' ' && 0 < i < |s| - 1 && !IsSpace(s[i + 1]);
    assert IsWord(s[..i]);
    NormalizedTail(s, i);
    assert s[i + 1..][0] == s[i + 1];
  }

  /** Normalised text is left as it is by `" ".join(s.split())`. */
  lemma {:induction false} NormalizedIsFixed(s: string)
    requires IsNormalized(s)
    ensures JoinSpace(Words(s)) == s
    decreases |s|
  {
    if WordRun(s) == |s| {
      WordRunFacts(s);
      if s == [] {
        assert SpaceRun(s) == |s|;
      } else {
        WordsOfWordThen(s, "");
        assert s + "" == s;
      }
    } else {
      NormalizedBreak(s);
      var i := WordRun(s);
      var w := s[..i];
      var rest := s[i + 1..];
      NormalizedIsFixed(rest);
      var ws := Words(rest);
      assert ws != [];
      WordsOfWordSpace(w, rest);
      assert ([w] + ws)[1..] == ws;
    }
  }

  /** Text is normalised exactly when `" ".join(s.split())` leaves it as it is. */
  lemma NormalizedIffFixed(s: string)
    ensures IsNormalized(s) <==> JoinSpace(Words(s)) == s
  {
    if IsNormalized(s) {
      NormalizedIsFixed(s);
    } else {
      WordsAreWords(s);
      JoinIsNormalized(Words(s));
    }
  }

  // ---------------------------------------------------------------------------
  // `s.split(c)` for a one-character separator
  // ---------------------------------------------------------------------------

  function IndexOf(s: string, c: char): (j: nat)
    requires c in s
    ensures j < |s| && s[j] == c && c !in s[..j]
  {
    if s[0] == c then 0 else 1 + IndexOf(s[1..], c)
  }

  /** `s.split(sep)` with a one-character separator: the pieces between
      separators, at least one of them. */
  function SplitOn(s: string, sep: char): (parts: seq<string>)
    ensures |parts| >= 1
    decreases |s|
  {
    if sep !in s then [s] else [BeforeSeparator(s, sep)] + SplitOn(AfterSeparator(s, sep), sep)
  }

  /** The text before the first separator. */
  function BeforeSeparator(s: string, sep: char): string
    requires sep in s
  {
    s[..IndexOf(s, sep)]
  }

  /** The text after the first separator. */
  function AfterSeparator(s: string, sep: char): (r: string)
    requires sep in s
    ensures |r| < |s|
  {
    s[IndexOf(s, sep) + 1..]
  }

  lemma IndexOfIs(s: string, c: char, j: nat)
    requires j < |s| && s[j] == c && c !in s[..j]
    ensures IndexOf(s, c) == j
  {
    var k := IndexOf(s, c);
    assert forall i :: 0 <= i < j ==> s[i] != c;
    assert forall i :: 0 <= i < k ==> s[i] != c;
  }

  /** No piece of `s.split(sep)` holds the separator. */
  lemma {:induction false} SplitOnPieces(s: string, sep: char)
    ensures forall k :: 0 <= k < |SplitOn(s, sep)| ==> sep !in SplitOn(s, sep)[k]
    decreases |s|
  {
    if sep in s {
      var j := IndexOf(s, sep);
      SplitOnPieces(s[j + 1..], sep);
      var parts := SplitOn(s, sep);
      assert parts == [s[..j]] + SplitOn(s[j + 1..], sep);
      forall k | 0 < k < |parts|
        ensures sep !in parts[k]
      {
        assert parts[k] == SplitOn(s[j + 1..], sep)[k - 1];
      }
    }
  }

  /** One step of `s.split(sep)`: the piece before the first separator,
      then the pieces of the rest. */
  lemma SplitOnStep(s: string, sep: char, j: nat)
    requires sep in s && j == IndexOf(s, sep)
    ensures SplitOn(s, sep) == [s[..j]] + SplitOn(s[j + 1..], sep)
  {
    assert BeforeSeparator(s, sep) == s[..j];
    assert AfterSeparator(s, sep) == s[j + 1..];
  }

  /** A separator placed after text without one ends the first piece. */
  lemma SplitOnAtFirst(a: string, sep: char, b: string)
    requires sep !in a
    ensures SplitOn(a + [sep] + b, sep) == [a] + SplitOn(b, sep)
  {
    var s := a + [sep] + b;
    assert s[..|a|] == a;
    IndexOfIs(s, sep, |a|);
    assert s[|a| + 1..] == b;
  }

  /** A separator inside `a` ends the first piece before the placed one. */
  lemma SplitOnBeforeFirst(a: string, sep: char, b: string)
    requires sep in a
    ensures var j := IndexOf(a, sep);
      SplitOn(a + [sep] + b, sep) == [a[..j]] + SplitOn(a[j + 1..] + [sep] + b, sep)
  {
    var s := a + [sep] + b;
    var j := IndexOf(a, sep);
    assert s[..j] == a[..j];
    IndexOfIs(s, sep, j);
    assert s[j + 1..] == a[j + 1..] + [sep] + b;
  }

  /** Splitting at a separator placed between `a` and `b`. */
  lemma {:induction false} SplitOnAround(a: string, sep: char, b: string)
    ensures SplitOn(a + [sep] + b, sep) == SplitOn(a, sep) + SplitOn(b, sep)
    decreases |a|
  {
    if sep !in a {
      SplitOnAtFirst(a, sep, b);
      assert SplitOn(a, sep) == [a];
    } else {
      var j := IndexOf(a, sep);
      var rest := SplitOn(a[j + 1..], sep);
      calc {
        SplitOn(a + [sep] + b, sep);
        == { SplitOnBeforeFirst(a, sep, b); }
        [a[..j]] + SplitOn(a[j + 1..] + [sep] + b, sep);
        == { SplitOnAround(a[j + 1..], sep, b); }
        [a[..j]] + (rest + SplitOn(b, sep));
        ==
        ([a[..j]] + rest) + SplitOn(b, sep);
        == { SplitOnStep(a, sep, j); }
        SplitOn(a, sep) + SplitOn(b, sep);
      }
    }
  }

  // ---------------------------------------------------------------------------
  // Ordering, case and paths
  // ---------------------------------------------------------------------------

  /** Python's `a <= b` on strings: code-point lexicographic order, a proper
      prefix before the longer string. */
  predicate LessEq(a: string, b: string) {
    a == [] || (b != [] && (a[0] < b[0] || (a[0] == b[0] && LessEq(a[1..], b[1..]))))
  }

  lemma {:induction false} LessEqTotal(a: string, b: string)
    ensures LessEq(a, b) || LessEq(b, a)
  {
    if a != [] && b != [] && a[0] == b[0] {
      LessEqTotal(a[1..], b[1..]);
    }
  }

  lemma {:induction false} LessEqTransitive(a: string, b: string, c: string)
    requires LessEq(a, b) && LessEq(b, c)
    ensures LessEq(a, c)
  {
    if a != [] && a[0] == b[0] && b[0] == c[0] {
      LessEqTransitive(a[1..], b[1..], c[1..]);
    }
  }

  lemma {:induction false} LessEqAntisymmetric(a: string, b: string)
    requires LessEq(a, b) && LessEq(b, a)
    ensures a == b
  {
    if a != [] {
      LessEqAntisymmetric(a[1..], b[1..]);
      assert a == [a[0]] + a[1..] && b == [b[0]] + b[1..];
    }
  }

  /** `c.lower()` for the characters whose lower case is one of '.', 'p',
      'd' and 'f': only the ASCII capitals change. */
  function LowerAscii(c: char): char {
    if 'A' <= c <= 'Z' then (c as int + 32) as char else c
  }

  /** `name.lower().endswith(".pdf")`. */
  predicate HasPdfExtension(name: string) {
    |name| >= 4 && forall i :: 0 <= i < 4 ==> LowerAscii(name[|name| - 4 + i]) == ".pdf"[i]
  }

  /** Where the last segment of the path `p` starts: just after its last '/',
      or at 0. */
  function SegmentStart(p: string): (i: nat)
    ensures i <= |p|
    ensures forall k :: i <= k < |p| ==> p[k] != '/'
    ensures i == 0 || p[i - 1] == '/'
  {
    if p == [] || p[|p| - 1] == '/' then |p| else SegmentStart(p[..|p| - 1])
  }

  /** `os.path.basename(p)`: the part of `p` after its last '/'. */
  function Basename(p: string): (b: string)
    ensures '/' !in b && |b| <= |p|
  {
    p[SegmentStart(p)..]
  }
}

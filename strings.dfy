/** ASCII string primitives that stand for the Python `str` methods and the
    small regular expressions the visitor bot uses: character classes,
    lower-casing, `strip()`, substring tests, `str.replace`, phrase removal
    (`re.sub` of an alternation with IGNORECASE) and `str.title()`.
    Characters outside ASCII are treated as neither letters, digits nor
    whitespace. */
module Strings {

  datatype Option<T> = None | Some(value: T)

  // ---------------------------------------------------------------------
  // Character classes
  // ---------------------------------------------------------------------

  /** Python's whitespace on ASCII: \t \n \v \f \r, the separators 0x1C-0x1F
      and the space. */
  predicate IsSpace(c: char) {
    9 <= c as int <= 13 || 28 <= c as int <= 32
  }

  predicate IsDigit(c: char) { '0' <= c <= '9' }

  predicate IsUpper(c: char) { 'A' <= c <= 'Z' }

  predicate IsLower(c: char) { 'a' <= c <= 'z' }

  /** `[A-Za-z]` */
  predicate IsLetter(c: char) { IsUpper(c) || IsLower(c) }

  /** `[A-Za-z0-9]` */
  predicate IsAlnum(c: char) { IsLetter(c) || IsDigit(c) }

  /** `\w` on ASCII: letters, digits and the underscore. */
  predicate IsWordChar(c: char) { IsAlnum(c) || c == '_' }

  function ToLowerChar(c: char): (d: char)
    ensures IsUpper(c) ==> IsLower(d) && d as int == c as int + 32
    ensures !IsUpper(c) ==> d == c
  {
    if IsUpper(c) then (c as int + 32) as char else c
  }

  function ToUpperChar(c: char): (d: char)
    ensures IsLower(c) ==> IsUpper(d) && d as int == c as int - 32
    ensures !IsLower(c) ==> d == c
  {
    if IsLower(c) then (c as int - 32) as char else c
  }

  predicate AllDigits(s: string) {
    forall i :: 0 <= i < |s| ==> IsDigit(s[i])
  }

  // ---------------------------------------------------------------------
  // lower(), strip()
  // ---------------------------------------------------------------------

  /** `s.lower()` */
  function Lower(s: string): (r: string)
    ensures |r| == |s|
    ensures forall i :: 0 <= i < |s| ==> r[i] == ToLowerChar(s[i])
  {
    seq(|s|, i requires 0 <= i < |s| => ToLowerChar(s[i]))
  }

  /** A string that `lower()` leaves alone has no upper-case letter. */
  predicate NoUpper(s: string) {
    forall i :: 0 <= i < |s| ==> !IsUpper(s[i])
  }

  lemma LowerHasNoUpper(s: string)
    ensures NoUpper(Lower(s))
    ensures NoUpper(s) ==> Lower(s) == s
  {
  }

  lemma NoUpperConcat(a: string, b: string)
    requires NoUpper(a) && NoUpper(b)
    ensures NoUpper(a + b)
  {
    assert forall i :: |a| <= i < |a + b| ==> (a + b)[i] == b[i - |a|];
  }

  lemma LowerOfConcat(a: string, b: string)
    ensures Lower(a + b) == Lower(a) + Lower(b)
  {
    assert forall i :: 0 <= i < |a + b| ==> Lower(a + b)[i] == (Lower(a) + Lower(b))[i];
  }

  /** `s.lstrip()` */
  function TrimStart(s: string): (r: string)
    ensures |r| <= |s| && r == s[|s| - |r|..]
    ensures forall i :: 0 <= i < |s| - |r| ==> IsSpace(s[i])
    ensures r == [] || !IsSpace(r[0])
  {
    if s != [] && IsSpace(s[0]) then TrimStart(s[1..]) else s
  }

  /** `s.rstrip()` */
  function TrimEnd(s: string): (r: string)
    ensures |r| <= |s| && r == s[..|r|]
    ensures forall i :: |r| <= i < |s| ==> IsSpace(s[i])
    ensures r == [] || !IsSpace(r[|r| - 1])
  {
    if s != [] && IsSpace(s[|s| - 1]) then TrimEnd(s[..|s| - 1]) else s
  }

  /** `s.strip()`: the result neither starts nor ends with whitespace. */
  function Strip(s: string): (r: string)
    ensures |r| <= |s|
    ensures r == [] || (!IsSpace(r[0]) && !IsSpace(r[|r| - 1]))
  {
    var t := TrimStart(s);
    var r := TrimEnd(t);
    assert r != [] ==> r[0] == t[0];
    r
  }

  /** Stripping twice is stripping once. */
  lemma StripIdempotent(s: string)
    ensures Strip(Strip(s)) == Strip(s)
  {
    var r := Strip(s);
    if r != [] {
      assert TrimStart(r) == r;
      assert TrimEnd(r) == r;
    }
  }

  /** Text that is already stripped is kept as it is. */
  lemma StripKeepsTrimmed(s: string)
    requires s == [] || (!IsSpace(s[0]) && !IsSpace(s[|s| - 1]))
    ensures Strip(s) == s
  {
    assert TrimStart(s) == s;
    assert TrimEnd(s) == s;
  }

  /** Lower-casing keeps a stripped text stripped. */
  lemma LowerKeepsTrimmed(s: string)
    requires s == [] || (!IsSpace(s[0]) && !IsSpace(s[|s| - 1]))
    ensures var l := Lower(s); l == [] || (!IsSpace(l[0]) && !IsSpace(l[|l| - 1]))
  {
  }

  // ---------------------------------------------------------------------
  // Substring tests (`w in s`, `any(w in s for w in ws)`)
  // ---------------------------------------------------------------------

  predicate StartsWith(s: string, p: string) {
    |p| <= |s| && s[..|p|] == p
  }

  /** Python's `w in s`: `w` occurs in `s` at some position. */
  predicate Contains(s: string, w: string)
    decreases |s|
  {
    StartsWith(s, w) || (s != [] && Contains(s[1..], w))
  }

  /** The recursive test agrees with "occurs at some index". */
  lemma {:induction false} ContainsAt(s: string, w: string, k: nat)
    requires k + |w| <= |s| && s[k..k + |w|] == w
    ensures Contains(s, w)
    decreases k
  {
    if k > 0 {
      assert s[1..][k - 1..k - 1 + |w|] == w;
      ContainsAt(s[1..], w, k - 1);
    }
  }

  lemma {:induction false} ContainsOccurrence(s: string, w: string) returns (k: nat)
    requires Contains(s, w)
    ensures k + |w| <= |s| && s[k..k + |w|] == w
    decreases |s|
  {
    if StartsWith(s, w) {
      k := 0;
    } else {
      var j := ContainsOccurrence(s[1..], w);
      k := j + 1;
      assert s[k..k + |w|] == s[1..][j..j + |w|];
    }
  }

  /** A pattern longer than the text does not occur in it. */
  lemma {:induction false} LongerNotContained(s: string, w: string)
    requires |w| > |s|
    ensures !Contains(s, w)
    decreases |s|
  {
    if s != [] {
      LongerNotContained(s[1..], w);
    }
  }

  /** A pattern holding a character the text lacks does not occur in it. */
  lemma {:induction false} MissingCharNotContained(s: string, w: string, c: char)
    requires c in w && c !in s
    ensures !Contains(s, w)
    decreases |s|
  {
    var j :| 0 <= j < |w| && w[j] == c;
    assert !StartsWith(s, w) by {
      if |w| <= |s| {
        assert s[..|w|][j] == s[j];
      }
    }
    if s != [] {
      MissingCharNotContained(s[1..], w, c);
    }
  }

  /** A pattern whose first character the text lacks, or that is longer
      than the text, does not occur in it. */
  lemma NotContainedByFirstChar(s: string, w: string)
    requires w != [] && (w[0] !in s || |w| > |s|)
    ensures !Contains(s, w)
  {
    if |w| > |s| {
      LongerNotContained(s, w);
    } else {
      MissingCharNotContained(s, w, w[0]);
    }
  }

  /** A different word of the same length does not occur. */
  lemma SameLengthNotContained(s: string, w: string)
    requires |w| == |s| && w != s
    ensures !Contains(s, w)
  {
    assert s[..|w|] == s;
    if s != [] {
      LongerNotContained(s[1..], w);
    }
  }


  /** Python's `any(w in s for w in ws)`. */
  predicate ContainsAny(s: string, ws: seq<string>) {
    exists k :: 0 <= k < |ws| && Contains(s, ws[k])
  }

  // ---------------------------------------------------------------------
  // str.replace
  // ---------------------------------------------------------------------

  /** `s.replace(pattern, replacement)` for a non-empty `pattern`: occurrences are found
      left to right and do not overlap. */
  function ReplaceAll(s: string, pattern: string, replacement: string): (r: string)
    requires pattern != []
    ensures !Contains(s, pattern) ==> r == s
    decreases |s|
  {
    if s == [] then []
    else if StartsWith(s, pattern) then replacement + ReplaceAll(s[|pattern|..], pattern, replacement)
    else [s[0]] + ReplaceAll(s[1..], pattern, replacement)
  }

  /** A piece without the pattern's first character is copied as it is. */
  lemma {:induction false} ReplaceAllCopiesWord(word: string, rest: string, pattern: string, replacement: string)
    requires pattern != [] && pattern[0] !in word
    ensures ReplaceAll(word + rest, pattern, replacement) == word + ReplaceAll(rest, pattern, replacement)
    decreases |word|
  {
    if word == [] {
      assert word + rest == rest;
    } else {
      var s := word + rest;
      assert s[0] == word[0];
      assert !StartsWith(s, pattern) by {
        if |pattern| <= |s| {
          assert s[..|pattern|][0] == s[0];
        }
      }
      ReplaceAllAtMiss(s, pattern, replacement);
      assert s[1..] == word[1..] + rest;
      ReplaceAllCopiesWord(word[1..], rest, pattern, replacement);
      FirstThenRest(word, ReplaceAll(rest, pattern, replacement));
    }
  }

  lemma FirstThenRest(w: string, y: string)
    requires w != []
    ensures [w[0]] + (w[1..] + y) == w + y
  {
    assert [w[0]] + w[1..] == w;
  }

  /** A piece without the pattern's first character is kept. */
  lemma ReplaceAllKeepsWord(word: string, pattern: string, replacement: string)
    requires pattern != [] && pattern[0] !in word
    ensures ReplaceAll(word, pattern, replacement) == word
  {
    ReplaceAllCopiesWord(word, [], pattern, replacement);
    assert word + [] == word;
  }

  /** A space followed by a word that cannot continue the pattern is copied
      as it is. */
  lemma ReplaceAllCopiesSpacedWord(word: string, rest: string, pattern: string, replacement: string)
    requires |pattern| >= 2 && pattern[0] !in word && word != [] && word[0] != pattern[1]
    ensures ReplaceAll(" " + word + rest, pattern, replacement) == " " + word + ReplaceAll(rest, pattern, replacement)
  {
    var s := " " + word + rest;
    assert !StartsWith(s, pattern) by {
      if |pattern| <= |s| {
        assert s[..|pattern|][1] == s[1] == word[0];
      }
    }
    assert s[1..] == word + rest;
    ReplaceAllCopiesWord(word, rest, pattern, replacement);
  }

  /** An occurrence at the front is replaced. */
  lemma ReplaceAllReplacesMatch(pattern: string, rest: string, replacement: string)
    requires pattern != []
    ensures ReplaceAll(pattern + rest, pattern, replacement) == replacement + ReplaceAll(rest, pattern, replacement)
  {
    assert (pattern + rest)[..|pattern|] == pattern;
    assert (pattern + rest)[|pattern|..] == rest;
  }

  /** A replacement table applied entry by entry, in order, as a Python loop
      over `dict.items()` does. */
  predicate KeysNonEmpty(table: seq<(string, string)>) {
    forall k :: 0 <= k < |table| ==> table[k].0 != []
  }

  function ApplyReplacements(s: string, table: seq<(string, string)>): string
    requires KeysNonEmpty(table)
    decreases |table|
  {
    if table == [] then s
    else
      var last := table[|table| - 1];
      ReplaceAll(ApplyReplacements(s, table[..|table| - 1]), last.0, last.1)
  }

  /** A pattern without a space does not start where the text starts with
      a space. */
  lemma SpaceStartsNoMatch(s: string, pattern: string)
    requires pattern != [] && ' ' !in pattern && s != [] && s[0] == ' '
    ensures !StartsWith(s, pattern)
  {
    assert pattern[0] != ' ';
    if |pattern| <= |s| {
      assert s[..|pattern|][0] == s[0];
    }
  }

  /** Whether a pattern without a space starts `a + " " + b` is decided
      by `a` alone. */
  lemma StartsBeforeSpace(a: string, b: string, pattern: string)
    requires pattern != [] && ' ' !in pattern
    ensures StartsWith(a + " " + b, pattern) <==> |pattern| <= |a| && a[..|pattern|] == pattern
  {
    var s := a + " " + b;
    if |pattern| <= |a| {
      assert s[..|pattern|] == a[..|pattern|];
    } else if |pattern| <= |s| {
      assert s[|a|] == ' ' && pattern[|a|] != ' ';
      assert s[..|pattern|][|a|] == s[|a|];
    }
  }

  lemma SpacedAppend(p: string, x: string, y: string)
    ensures p + (x + " " + y) == (p + x) + " " + y
  {
  }

  /** A match at the start is replaced and the rest rewritten. */
  lemma ReplaceAllAtMatch(s: string, pattern: string, replacement: string)
    requires pattern != [] && StartsWith(s, pattern)
    ensures ReplaceAll(s, pattern, replacement) == replacement + ReplaceAll(s[|pattern|..], pattern, replacement)
  {
  }

  /** Without a match at the start, the first character is copied. */
  lemma ReplaceAllAtMiss(s: string, pattern: string, replacement: string)
    requires pattern != [] && s != [] && !StartsWith(s, pattern)
    ensures ReplaceAll(s, pattern, replacement) == [s[0]] + ReplaceAll(s[1..], pattern, replacement)
  {
  }

  /** The leading space of `" " + b` is copied. */
  lemma ReplaceAllAfterSpace(b: string, pattern: string, replacement: string)
    requires pattern != [] && ' ' !in pattern
    ensures ReplaceAll(" " + b, pattern, replacement) == " " + ReplaceAll(b, pattern, replacement)
  {
    var s := " " + b;
    SpaceStartsNoMatch(s, pattern);
    assert s[1..] == b;
  }

  /** A match at the start of `a` is a match at the start of `a + " " + b`. */
  lemma ReplaceAllMatchBeforeSpace(a: string, b: string, pattern: string, replacement: string)
    requires pattern != [] && ' ' !in pattern
    requires |pattern| <= |a| && a[..|pattern|] == pattern
    requires ReplaceAll(a[|pattern|..] + " " + b, pattern, replacement)
      == ReplaceAll(a[|pattern|..], pattern, replacement) + " " + ReplaceAll(b, pattern, replacement)
    ensures ReplaceAll(a + " " + b, pattern, replacement)
      == ReplaceAll(a, pattern, replacement) + " " + ReplaceAll(b, pattern, replacement)
  {
    var s, rest := a + " " + b, a[|pattern|..];
    StartsBeforeSpace(a, b, pattern);
    assert s[|pattern|..] == rest + " " + b;
    ReplaceAllAtMatch(s, pattern, replacement);
    ReplaceAllAtMatch(a, pattern, replacement);
    SpacedAppend(replacement, ReplaceAll(rest, pattern, replacement), ReplaceAll(b, pattern, replacement));
  }

  /** No match at the start of `a` is no match at the start of `a + " " + b`. */
  lemma ReplaceAllCopyBeforeSpace(a: string, b: string, pattern: string, replacement: string)
    requires pattern != [] && ' ' !in pattern && a != []
    requires !(|pattern| <= |a| && a[..|pattern|] == pattern)
    requires ReplaceAll(a[1..] + " " + b, pattern, replacement)
      == ReplaceAll(a[1..], pattern, replacement) + " " + ReplaceAll(b, pattern, replacement)
    ensures ReplaceAll(a + " " + b, pattern, replacement)
      == ReplaceAll(a, pattern, replacement) + " " + ReplaceAll(b, pattern, replacement)
  {
    var s, rest := a + " " + b, a[1..];
    StartsBeforeSpace(a, b, pattern);
    assert s[0] == a[0] && s[1..] == rest + " " + b;
    ReplaceAllAtMiss(s, pattern, replacement);
    ReplaceAllAtMiss(a, pattern, replacement);
    SpacedAppend([a[0]], ReplaceAll(rest, pattern, replacement), ReplaceAll(b, pattern, replacement));
  }

  /** A pattern without a space never spans one: the text on each side of
      a space is rewritten on its own. */
  lemma {:induction false} ReplaceAllSplitsAtSpace(a: string, b: string, pattern: string, replacement: string)
    requires pattern != [] && ' ' !in pattern
    ensures ReplaceAll(a + " " + b, pattern, replacement)
      == ReplaceAll(a, pattern, replacement) + " " + ReplaceAll(b, pattern, replacement)
    decreases |a|
  {
    if a == [] {
      assert a + " " + b == " " + b;
      ReplaceAllAfterSpace(b, pattern, replacement);
    } else if |pattern| <= |a| && a[..|pattern|] == pattern {
      ReplaceAllSplitsAtSpace(a[|pattern|..], b, pattern, replacement);
      ReplaceAllMatchBeforeSpace(a, b, pattern, replacement);
    } else {
      ReplaceAllSplitsAtSpace(a[1..], b, pattern, replacement);
      ReplaceAllCopyBeforeSpace(a, b, pattern, replacement);
    }
  }

  /** One more entry of the table is one more replacement. */
  lemma ApplyReplacementsStep(s: string, table: seq<(string, string)>, k: nat)
    requires KeysNonEmpty(table) && k < |table|
    ensures ApplyReplacements(s, table[..k + 1])
      == ReplaceAll(ApplyReplacements(s, table[..k]), table[k].0, table[k].1)
  {
    assert table[..k + 1][..k] == table[..k];
  }

  /** A table whose keys hold no space rewrites the text on each side of
      a space on its own. */
  lemma {:induction false} ApplyReplacementsSplitsAtSpace(a: string, b: string, table: seq<(string, string)>)
    requires KeysNonEmpty(table) && forall k :: 0 <= k < |table| ==> ' ' !in table[k].0
    ensures ApplyReplacements(a + " " + b, table)
      == ApplyReplacements(a, table) + " " + ApplyReplacements(b, table)
    decreases |table|
  {
    if table != [] {
      var last := table[|table| - 1];
      ApplyReplacementsSplitsAtSpace(a, b, table[..|table| - 1]);
      ReplaceAllSplitsAtSpace(ApplyReplacements(a, table[..|table| - 1]), ApplyReplacements(b, table[..|table| - 1]), last.0, last.1);
    }
  }

  /** Applying two tables one after the other is applying their
      concatenation. */
  lemma {:induction false} ApplyReplacementsConcat(s: string, first: seq<(string, string)>, second: seq<(string, string)>)
    requires KeysNonEmpty(first) && KeysNonEmpty(second)
    ensures KeysNonEmpty(first + second)
    ensures ApplyReplacements(s, first + second) == ApplyReplacements(ApplyReplacements(s, first), second)
    decreases |second|
  {
    var both := first + second;
    assert forall k :: 0 <= k < |both| ==> both[k] == (if k < |first| then first[k] else second[k - |first|]);
    if second == [] {
      assert both == first;
    } else {
      assert both[..|both| - 1] == first + second[..|second| - 1];
      assert both[|both| - 1] == second[|second| - 1];
      ApplyReplacementsConcat(s, first, second[..|second| - 1]);
    }
  }

  /** The table up to an entry, then the rest of it. */
  lemma ApplyReplacementsSplit(s: string, table: seq<(string, string)>, n: nat)
    requires KeysNonEmpty(table) && n <= |table|
    ensures ApplyReplacements(s, table) == ApplyReplacements(ApplyReplacements(s, table[..n]), table[n..])
  {
    assert table[..n] + table[n..] == table;
    ApplyReplacementsConcat(s, table[..n], table[n..]);
  }

  /** The loop `for a, b in table.items(): s = s.replace(a, b)`. */
  method ReplaceEach(s: string, table: seq<(string, string)>) returns (r: string)
    requires KeysNonEmpty(table)
    ensures r == ApplyReplacements(s, table)
  {
    r := s;
    var i := 0;
    while i < |table|
      invariant 0 <= i <= |table|
      invariant r == ApplyReplacements(s, table[..i])
    {
      assert table[..i + 1][..i] == table[..i];
      r := ReplaceAll(r, table[i].0, table[i].1);
      i := i + 1;
    }
    assert table[..i] == table;
  }

  // ---------------------------------------------------------------------
  // re.sub('(p1|p2|...)', '', s, flags=re.IGNORECASE)
  // ---------------------------------------------------------------------

  /** Index of the first phrase `s` starts with, ignoring case (the phrases
      are lower-case), or |phrases| when there is none: the alternation of a
      regular expression tries its alternatives in order. */
  function FirstPrefix(s: string, phrases: seq<string>): (k: nat)
    ensures k <= |phrases|
    ensures k < |phrases| ==> StartsWith(Lower(s), phrases[k])
    ensures forall j :: 0 <= j < k ==> !StartsWith(Lower(s), phrases[j])
    decreases |phrases|
  {
    if phrases == [] then 0
    else if StartsWith(Lower(s), phrases[0]) then 0
    else 1 + FirstPrefix(s, phrases[1..])
  }

  predicate AllNonEmpty(phrases: seq<string>) {
    forall k :: 0 <= k < |phrases| ==> phrases[k] != []
  }

  /** Every match of the alternation, scanned left to right, is deleted. */
  function RemovePhrases(s: string, phrases: seq<string>): (r: string)
    requires AllNonEmpty(phrases)
    ensures |r| <= |s|
    decreases |s|
  {
    if s == [] then []
    else
      var k := FirstPrefix(s, phrases);
      if k < |phrases| then RemovePhrases(s[|phrases[k]|..], phrases)
      else [s[0]] + RemovePhrases(s[1..], phrases)
  }

  /** Removing phrases only deletes characters: every character of the
      result is a character of the input. */
  lemma {:induction false} RemovePhrasesKeepsChars(s: string, phrases: seq<string>, i: nat)
    requires AllNonEmpty(phrases)
    requires i < |RemovePhrases(s, phrases)|
    ensures RemovePhrases(s, phrases)[i] in s
    decreases |s|
  {
    var k := FirstPrefix(s, phrases);
    if k < |phrases| {
      RemovePhrasesKeepsChars(s[|phrases[k]|..], phrases, i);
    } else if i > 0 {
      RemovePhrasesKeepsChars(s[1..], phrases, i - 1);
    }
  }

  /** Text in which no phrase occurs, ignoring case, comes out unchanged. */
  lemma {:induction false} RemovePhrasesWithoutMatch(s: string, phrases: seq<string>)
    requires AllNonEmpty(phrases)
    requires forall k :: 0 <= k < |phrases| ==> !Contains(Lower(s), phrases[k])
    ensures RemovePhrases(s, phrases) == s
    decreases |s|
  {
    if s != [] {
      assert FirstPrefix(s, phrases) == |phrases|;
      assert Lower(s[1..]) == Lower(s)[1..];
      RemovePhrasesWithoutMatch(s[1..], phrases);
      assert [s[0]] + s[1..] == s;
    }
  }

  // ---------------------------------------------------------------------
  // str.title()
  // ---------------------------------------------------------------------

  /** `s.title()`: a letter is upper-cased when the character before it in
      `s` is not a letter, and lower-cased otherwise; the rest is kept. */
  function TitleCase(s: string): (r: string)
    ensures |r| == |s|
    ensures forall i :: 0 <= i < |s| ==> (IsLetter(r[i]) <==> IsLetter(s[i]))
    ensures forall i :: 0 <= i < |s| ==> (IsSpace(r[i]) <==> IsSpace(s[i]))
    ensures forall i :: 0 <= i < |s| && !IsLetter(s[i]) ==> r[i] == s[i]
    ensures forall i :: 0 <= i < |s| ==> ToLowerChar(r[i]) == ToLowerChar(s[i])
  {
    seq(|s|, i requires 0 <= i < |s| =>
      if i > 0 && IsLetter(s[i - 1]) then ToLowerChar(s[i]) else ToUpperChar(s[i]))
  }

  /** Title shape: each letter is upper-case exactly when it starts a run of
      letters. */
  predicate TitleShaped(s: string) {
    forall i :: 0 <= i < |s| && IsLetter(s[i]) ==>
      if i > 0 && IsLetter(s[i - 1]) then IsLower(s[i]) else IsUpper(s[i])
  }

  /** Title-casing keeps which characters are letters and which are
      whitespace, so it keeps a stripped text stripped. */
  lemma TitleCaseKeepsClasses(s: string)
    ensures |TitleCase(s)| == |s|
    ensures s != [] ==> (IsSpace(TitleCase(s)[0]) <==> IsSpace(s[0]))
    ensures s != [] ==> (IsSpace(TitleCase(s)[|s| - 1]) <==> IsSpace(s[|s| - 1]))
    ensures (forall i :: 0 <= i < |s| ==> IsLetter(s[i]) || IsSpace(s[i])) ==>
      forall i :: 0 <= i < |s| ==> IsLetter(TitleCase(s)[i]) || IsSpace(TitleCase(s)[i])
  {
  }

  lemma TitleCaseShape(s: string)
    ensures TitleShaped(TitleCase(s))
    ensures TitleCase(TitleCase(s)) == TitleCase(s)
    ensures Lower(TitleCase(s)) == Lower(s)
  {
    var t := TitleCase(s);
    assert forall i :: 0 <= i < |s| ==> TitleCase(t)[i] == t[i];
  }
}

/**
  The text repair passes that app.py runs over language-model output before
  and after json.loads: rule_based_clean (on every string inside a parsed
  value), clean_json_recursively, strip_markdown_fences, preprocess_json,
  try_clean_and_parse and clean_and_fix_json.

  Each regular-expression substitution is written out as the left-to-right,
  non-overlapping scan that re.sub performs, over the rest of the string.
  json.loads is the oracle `parse`.
*/
module Cleaning {
  import opened Text
  import opened JsonValue

  // ---------------------------------------------------------------------------
  // Character classes
  // ---------------------------------------------------------------------------

  /** The typographic quotes U+201C, U+201D, U+2018 and U+2019. */
  predicate IsCurlyQuote(c: char) {
    c == '\U{201C}' || c == '\U{201D}' || c == '\U{2018}' || c == '\U{2019}'
  }

  /** The class [,.!?;:] */
  predicate IsPunct(c: char) {
    c == ',' || c == '.' || c == '!' || c == '?' || c == ';' || c == ':'
  }

  /** The class [!?.,] of characters whose runs are collapsed. */
  predicate IsRepeatable(c: char) {
    c == '!' || c == '?' || c == '.' || c == ','
  }

  /** No leading or trailing white space, and not empty. */
  predicate Trimmed(s: string) {
    s != [] && !IsSpace(s[0]) && !IsSpace(s[|s| - 1])
  }

  /** The double curly quotes become '"', the single ones '\''; nothing else
      changes. */
  function StraightenQuotes(s: string): (r: string)
    ensures |r| == |s|
    ensures forall i | 0 <= i < |s| :: !IsCurlyQuote(r[i])
    ensures forall i | 0 <= i < |s| :: !IsCurlyQuote(s[i]) ==> r[i] == s[i]
    ensures forall i | 0 <= i < |s| :: (s[i] == '\U{201C}' || s[i] == '\U{201D}') ==> r[i] == '"'
    ensures forall i | 0 <= i < |s| :: (s[i] == '\U{2018}' || s[i] == '\U{2019}') ==> r[i] == '\''
  {
    ReplaceChar(ReplaceChar(ReplaceChar(ReplaceChar(s, '\U{201C}', '"'), '\U{201D}', '"'), '\U{2018}', '\''), '\U{2019}', '\'')
  }

  // ---------------------------------------------------------------------------
  // rule_based_clean
  // ---------------------------------------------------------------------------

  /** re.sub(r"\s+", " ", s) */
  function CollapseSpace(s: string): (r: string)
    ensures s == [] <==> r == []
    ensures s != [] && !IsSpace(s[0]) ==> r[0] == s[0]
    ensures s != [] && !IsSpace(s[|s| - 1]) ==> r[|r| - 1] == s[|s| - 1]
    decreases |s|
  {
    if s == [] then []
    else if IsSpace(s[0]) then
      LeadCountRun(s, IsSpace);
      " " + CollapseSpace(s[LeadCount(s, IsSpace)..])
    else [s[0]] + CollapseSpace(s[1..])
  }

  /** `s` starts with a white-space run that a punctuation mark follows. */
  predicate PunctAfterRun(s: string) {
    s != [] && IsSpace(s[0]) && LeadCount(s, IsSpace) < |s| && IsPunct(s[LeadCount(s, IsSpace)])
  }

  /** re.sub(r"\s+([,.!?;:])", r"\1", s): a white-space run right before a
      punctuation mark is dropped. */
  function DropSpaceBeforePunct(s: string): (r: string)
    ensures s == [] <==> r == []
    ensures s != [] && !IsSpace(s[0]) ==> r[0] == s[0]
    ensures s != [] ==> r[|r| - 1] == s[|s| - 1]
    decreases |s|
  {
    if s == [] then []
    else if PunctAfterRun(s) then
      var n := LeadCount(s, IsSpace);
      [s[n]] + DropSpaceBeforePunct(s[n + 1..])
    else [s[0]] + DropSpaceBeforePunct(s[1..])
  }

  /** re.sub(r"([,.!?;:])([A-Za-z0-9])", r"\1 \2", s): a space goes between a
      punctuation mark and a letter or digit right after it. */
  function SpaceAfterPunct(s: string): (r: string)
    ensures s == [] <==> r == []
    ensures s != [] ==> r[0] == s[0]
    ensures s != [] ==> r[|r| - 1] == s[|s| - 1]
    decreases |s|
  {
    if s == [] then []
    else if |s| >= 2 && IsPunct(s[0]) && IsAlnum(s[1]) then [s[0], ' ', s[1]] + SpaceAfterPunct(s[2..])
    else [s[0]] + SpaceAfterPunct(s[1..])
  }

  /** re.sub(r"([!?.,])\1+", r"\1", s): a run of one repeated [!?.,]
      character becomes a single one. */
  function CollapseRepeats(s: string): (r: string)
    ensures s == [] <==> r == []
    ensures s != [] ==> r[0] == s[0]
    ensures s != [] ==> r[|r| - 1] == s[|s| - 1]
    decreases |s|
  {
    if s == [] then []
    else if |s| >= 2 && IsRepeatable(s[0]) && s[1] == s[0] then
      var n := LeadCount(s, c => c == s[0]);
      LeadCountRun(s, c => c == s[0]);
      [s[0]] + CollapseRepeats(s[n..])
    else [s[0]] + CollapseRepeats(s[1..])
  }

  /** `t` starts with the word `w` and the word ends there (`\1\b`). */
  predicate RepeatsAt(t: string, w: string) {
    StartsWith(t, w) && (|t| == |w| || !IsWordChar(t[|w|]))
  }

  /** Where the scan resumes after the word at the start of `s`: just past
      the word, or, when white space and the same word follow, just past
      the second copy. */
  function RepeatEnd(s: string): (e: nat)
    requires s != [] && IsWordChar(s[0])
    ensures 1 <= LeadCount(s, IsWordChar) <= e <= |s|
    ensures e == |s| ==> s[e - 1] == s[LeadCount(s, IsWordChar) - 1]
  {
    var n := LeadCount(s, IsWordChar);
    var m := LeadCount(s[n..], IsSpace);
    if m > 0 && RepeatsAt(s[n + m..], s[..n]) then
      assert s[n + m..][n - 1] == s[n - 1];
      n + m + n
    else n
  }

  /** re.sub(r"\b(\w+)\s+\1\b", r"\1", s): a word followed by white space
      and the same word again keeps only the first copy. `afterWord` says
      whether the character before `s` was a word character, in which case
      no word starts at `s[0]`. */
  function DropRepeatedWord(s: string, afterWord: bool): (r: string)
    ensures s == [] <==> r == []
    ensures s != [] ==> r[0] == s[0]
    ensures s != [] ==> r[|r| - 1] == s[|s| - 1]
    decreases |s|
  {
    if s == [] then []
    else if afterWord || !IsWordChar(s[0]) then [s[0]] + DropRepeatedWord(s[1..], IsWordChar(s[0]))
    else s[..LeadCount(s, IsWordChar)] + DropRepeatedWord(s[RepeatEnd(s)..], true)
  }

  /** rule_based_clean(text) */
  function RuleBasedClean(text: string): string {
    var t := CollapseSpace(Strip(text));
    var t := DropSpaceBeforePunct(t);
    var t := SpaceAfterPunct(t);
    var t := CollapseRepeats(t);
    var t := StraightenQuotes(t);
    DropRepeatedWord(t, false)
  }

  // --- what each pass keeps -------------------------------------------------

  /** Every white-space character is a single ' '. */
  predicate SingleSpaced(s: string) {
    forall i | 0 <= i < |s| && IsSpace(s[i]) :: s[i] == ' ' && (i + 1 < |s| ==> !IsSpace(s[i + 1]))
  }

  /** After the `\s+` pass every white-space run is one plain space. */
  lemma {:induction false} CollapseSpaceSingle(s: string)
    ensures SingleSpaced(CollapseSpace(s))
    decreases |s|
  {
    if s != [] {
      var r := CollapseSpace(s);
      if IsSpace(s[0]) {
        var n := LeadCount(s, IsSpace);
        var t := s[n..];
        CollapseSpaceSingle(t);
        assert r == " " + CollapseSpace(t);
        assert t != [] ==> !IsSpace(t[0]);
      } else {
        CollapseSpaceSingle(s[1..]);
        assert r == [s[0]] + CollapseSpace(s[1..]);
      }
    }
  }

  /** The `\s+` pass changes white space only. */
  lemma {:induction false} CollapseSpaceKeepsText(s: string)
    ensures NoSpace(CollapseSpace(s)) == NoSpace(s)
    decreases |s|
  {
    if s != [] {
      if IsSpace(s[0]) {
        var n := LeadCount(s, IsSpace);
        CollapseSpaceRun(s);
        CollapseSpaceKeepsText(s[n..]);
        SpaceRunNoSpace(s);
        NoSpaceAppend(" ", CollapseSpace(s[n..]));
      } else {
        CollapseSpaceCopy(s);
        CollapseSpaceKeepsText(s[1..]);
        NoSpaceAppend([s[0]], CollapseSpace(s[1..]));
        NoSpaceAppend([s[0]], s[1..]);
        assert s == [s[0]] + s[1..];
      }
    }
  }

  lemma {:induction false} CollapseSpaceRun(s: string)
    requires s != [] && IsSpace(s[0])
    ensures CollapseSpace(s) == " " + CollapseSpace(s[LeadCount(s, IsSpace)..])
  {
  }

  lemma {:induction false} CollapseSpaceCopy(s: string)
    requires s != [] && !IsSpace(s[0])
    ensures CollapseSpace(s) == [s[0]] + CollapseSpace(s[1..])
  {
  }

  /** A leading white-space run has no visible characters. */
  lemma {:induction false} SpaceRunNoSpace(s: string)
    ensures LeadCount(s, IsSpace) <= |s|
    ensures NoSpace(s) == NoSpace(s[LeadCount(s, IsSpace)..])
  {
    var n := LeadCount(s, IsSpace);
    LeadCountRun(s, IsSpace);
    assert forall i | 0 <= i < n :: IsSpace(s[..n][i]);
    NoSpaceOfSpaces(s[..n]);
    assert s == s[..n] + s[n..];
    NoSpaceAppend(s[..n], s[n..]);
  }

  /** When the white-space run at the start of `s` is not followed by
      punctuation, the scan from the next character does not emit
      punctuation first. */
  lemma {:induction false} FailedRunNext(s: string)
    requires |s| > 1 && IsSpace(s[0]) && !PunctAfterRun(s)
    ensures !IsPunct(DropSpaceBeforePunct(s[1..])[0])
  {
    var t := s[1..];
    assert LeadCount(s, IsSpace) == 1 + LeadCount(t, IsSpace);
    if IsSpace(t[0]) {
      var k := LeadCount(t, IsSpace);
      assert k < |t| ==> t[k] == s[k + 1];
      assert !PunctAfterRun(t);
    }
  }

  /** No white-space character stands right before a punctuation mark. */
  predicate NoSpaceBeforePunct(r: string) {
    forall i | 0 <= i < |r| - 1 :: IsSpace(r[i]) ==> !IsPunct(r[i + 1])
  }

  lemma {:induction false} ConsNoSpaceBeforePunct(c: char, t: string)
    requires NoSpaceBeforePunct(t)
    requires IsSpace(c) && t != [] ==> !IsPunct(t[0])
    ensures NoSpaceBeforePunct([c] + t)
  {
    var r := [c] + t;
    forall i | 1 <= i < |r| - 1
      ensures IsSpace(r[i]) ==> !IsPunct(r[i + 1])
    {
      assert r[i] == t[i - 1] && r[i + 1] == t[i];
    }
  }

  /** In the output of the `\s+([,.!?;:])` pass no white space stands right
      before a punctuation mark. */
  lemma {:induction false} DropSpaceBeforePunctDone(s: string)
    ensures NoSpaceBeforePunct(DropSpaceBeforePunct(s))
    decreases |s|
  {
    if s != [] {
      var t := if PunctAfterRun(s) then s[LeadCount(s, IsSpace) + 1..] else s[1..];
      var c := if PunctAfterRun(s) then s[LeadCount(s, IsSpace)] else s[0];
      var rt := DropSpaceBeforePunct(t);
      assert DropSpaceBeforePunct(s) == [c] + rt;
      DropSpaceBeforePunctDone(t);
      if IsSpace(c) && rt != [] {
        FailedRunNext(s);
      }
      ConsNoSpaceBeforePunct(c, rt);
    }
  }

  /** After the `([,.!?;:])([A-Za-z0-9])` pass no punctuation mark is
      directly followed by a letter or digit. */
  lemma {:induction false} SpaceAfterPunctDone(s: string)
    ensures var r := SpaceAfterPunct(s);
            forall i | 0 <= i < |r| - 1 :: IsPunct(r[i]) ==> !IsAlnum(r[i + 1])
    decreases |s|
  {
    if s != [] {
      var r := SpaceAfterPunct(s);
      if |s| >= 2 && IsPunct(s[0]) && IsAlnum(s[1]) {
        SpaceAfterPunctDone(s[2..]);
        assert r == [s[0], ' ', s[1]] + SpaceAfterPunct(s[2..]);
      } else {
        SpaceAfterPunctDone(s[1..]);
        assert r == [s[0]] + SpaceAfterPunct(s[1..]);
      }
    }
  }

  /** No [!?.,] character is directly followed by itself. */
  predicate NoRepeats(s: string) {
    forall i | 0 <= i < |s| - 1 :: IsRepeatable(s[i]) ==> s[i + 1] != s[i]
  }

  /** After the `([!?.,])\1+` pass no [!?.,] character is doubled. */
  lemma {:induction false} CollapseRepeatsDone(s: string)
    ensures NoRepeats(CollapseRepeats(s))
    decreases |s|
  {
    if s != [] {
      var r := CollapseRepeats(s);
      if |s| >= 2 && IsRepeatable(s[0]) && s[1] == s[0] {
        var n := LeadCount(s, c => c == s[0]);
        CollapseRepeatsDone(s[n..]);
        assert r == [s[0]] + CollapseRepeats(s[n..]);
      } else {
        CollapseRepeatsDone(s[1..]);
        assert r == [s[0]] + CollapseRepeats(s[1..]);
      }
    }
  }

  /** The repeated-word pass only removes text: every character of its
      output occurs in its input. */
  lemma {:induction false} DropRepeatedWordKeepsAbsent(s: string, afterWord: bool, p: char -> bool)
    requires forall i | 0 <= i < |s| :: !p(s[i])
    ensures var r := DropRepeatedWord(s, afterWord);
            forall i | 0 <= i < |r| :: !p(r[i])
    decreases |s|
  {
    if s != [] {
      if afterWord || !IsWordChar(s[0]) {
        DropRepeatedWordCopy(s, afterWord);
        DropRepeatedWordKeepsAbsent(s[1..], IsWordChar(s[0]), p);
        NoneInAppend(s[..1], DropRepeatedWord(s[1..], IsWordChar(s[0])), p);
        assert s[..1] == [s[0]];
      } else {
        var n, e := LeadCount(s, IsWordChar), RepeatEnd(s);
        DropRepeatedWordAtWord(s);
        DropRepeatedWordKeepsAbsent(s[e..], true, p);
        NoneInAppend(s[..n], DropRepeatedWord(s[e..], true), p);
      }
    }
  }

  /** A text without white space has no repeated word to drop. */
  lemma {:induction false} DropRepeatedWordNeedsSpace(s: string, afterWord: bool)
    requires forall i | 0 <= i < |s| :: !IsSpace(s[i])
    ensures DropRepeatedWord(s, afterWord) == s
    decreases |s|
  {
    if s != [] {
      var n, next := DropRepeatedWordNoSpaceStep(s, afterWord);
      DropRepeatedWordNeedsSpace(s[n..], next);
      SplitAt(s, n);
    }
  }

  /** Without white space, one step copies a prefix `s[..n]` unchanged
      (one character, or a whole word that no copy can follow). */
  lemma {:induction false} DropRepeatedWordNoSpaceStep(s: string, afterWord: bool) returns (n: nat, next: bool)
    requires s != [] && forall i | 0 <= i < |s| :: !IsSpace(s[i])
    ensures 1 <= n <= |s| && DropRepeatedWord(s, afterWord) == s[..n] + DropRepeatedWord(s[n..], next)
    ensures forall i | 0 <= i < |s[n..]| :: !IsSpace(s[n..][i])
  {
    if afterWord || !IsWordChar(s[0]) {
      DropRepeatedWordCopy(s, afterWord);
      n, next := 1, IsWordChar(s[0]);
      assert s[..1] == [s[0]];
    } else {
      n, next := LeadCount(s, IsWordChar), true;
      assert n < |s| ==> !IsSpace(s[n..][0]);
      assert RepeatEnd(s) == n;
      DropRepeatedWordAtWord(s);
    }
  }

  lemma {:induction false} DropRepeatedWordCopy(s: string, afterWord: bool)
    requires s != [] && (afterWord || !IsWordChar(s[0]))
    ensures DropRepeatedWord(s, afterWord) == [s[0]] + DropRepeatedWord(s[1..], IsWordChar(s[0]))
  {
  }

  lemma {:induction false} DropRepeatedWordAtWord(s: string)
    requires s != [] && IsWordChar(s[0])
    ensures DropRepeatedWord(s, false) == s[..LeadCount(s, IsWordChar)] + DropRepeatedWord(s[RepeatEnd(s)..], true)
  {
  }

  /** The first five passes keep a stripped text stripped. */
  lemma {:induction false} PassesKeepStripped(t0: string)
    requires Stripped(t0)
    ensures Stripped(StraightenQuotes(CollapseRepeats(SpaceAfterPunct(DropSpaceBeforePunct(CollapseSpace(t0))))))
  {
    if t0 != [] {
      var t1 := CollapseSpace(t0);
      var t2 := DropSpaceBeforePunct(t1);
      var t3 := SpaceAfterPunct(t2);
      var t4 := CollapseRepeats(t3);
      assert Trimmed(t4);
    }
  }

  // --- single spaces and no doubled [!?.,] survive the later passes ------

  /** Joining two single-spaced texts keeps single spacing unless a space
      ends the first and another starts the second. */
  lemma {:induction false} SingleAppend(a: string, b: string)
    requires SingleSpaced(a) && SingleSpaced(b)
    requires a != [] && b != [] && IsSpace(a[|a| - 1]) ==> !IsSpace(b[0])
    ensures SingleSpaced(a + b)
  {
    var r := a + b;
    forall i | 0 <= i < |r| && IsSpace(r[i])
      ensures r[i] == ' ' && (i + 1 < |r| ==> !IsSpace(r[i + 1]))
    {
      if i < |a| {
        assert r[i] == a[i];
        if i + 1 < |a| {
          assert r[i + 1] == a[i + 1];
        } else if i + 1 < |r| {
          assert r[i + 1] == b[0];
        }
      } else {
        assert r[i] == b[i - |a|];
        if i + 1 < |r| {
          assert r[i + 1] == b[i + 1 - |a|];
        }
      }
    }
  }

  lemma {:induction false} SingleSuffix(s: string, k: nat)
    requires SingleSpaced(s) && k <= |s|
    ensures SingleSpaced(s[k..])
  {
    var t := s[k..];
    forall i | 0 <= i < |t| && IsSpace(t[i])
      ensures t[i] == ' ' && (i + 1 < |t| ==> !IsSpace(t[i + 1]))
    {
      assert t[i] == s[k + i];
      if i + 1 < |t| {
        assert t[i + 1] == s[k + i + 1];
      }
    }
  }

  /** A text without white space is single-spaced. */
  lemma {:induction false} SingleSolid(s: string)
    requires forall i | 0 <= i < |s| :: !IsSpace(s[i])
    ensures SingleSpaced(s)
  {
  }

  /** The first character of a single-spaced text is single-spaced, and
      when it is white space the next one is not. */
  lemma {:induction false} SingleHead(s: string)
    requires SingleSpaced(s) && s != []
    ensures SingleSpaced([s[0]])
    ensures |s| > 1 && IsSpace(s[0]) ==> !IsSpace(s[1..][0])
  {
  }

  /** Joining two texts without doubled [!?.,] characters keeps them so
      unless the first ends with such a character and the second starts
      with the same one. */
  lemma {:induction false} NoRepeatsAppend(a: string, b: string)
    requires NoRepeats(a) && NoRepeats(b)
    requires a != [] && b != [] && IsRepeatable(a[|a| - 1]) ==> b[0] != a[|a| - 1]
    ensures NoRepeats(a + b)
  {
    var r := a + b;
    forall i | 0 <= i < |r| - 1 && IsRepeatable(r[i])
      ensures r[i + 1] != r[i]
    {
      if i + 1 < |a| {
        assert r[i] == a[i] && r[i + 1] == a[i + 1];
      } else if i + 1 == |a| {
        assert r[i] == a[i] && r[i + 1] == b[0];
      } else {
        assert r[i] == b[i - |a|] && r[i + 1] == b[i + 1 - |a|];
      }
    }
  }

  lemma {:induction false} NoRepeatsSuffix(s: string, k: nat)
    requires NoRepeats(s) && k <= |s|
    ensures NoRepeats(s[k..])
  {
    var t := s[k..];
    forall i | 0 <= i < |t| - 1 && IsRepeatable(t[i])
      ensures t[i + 1] != t[i]
    {
      assert t[i] == s[k + i] && t[i + 1] == s[k + i + 1];
    }
  }

  /** The `\s+([,.!?;:])` pass keeps single spacing. */
  lemma {:induction false} DropSpaceBeforePunctSingle(s: string)
    requires SingleSpaced(s)
    ensures SingleSpaced(DropSpaceBeforePunct(s))
    decreases |s|
  {
    if s != [] {
      if PunctAfterRun(s) {
        var n := LeadCount(s, IsSpace);
        SingleSuffix(s, n + 1);
        DropSpaceBeforePunctSingle(s[n + 1..]);
        SingleSolid([s[n]]);
        SingleAppend([s[n]], DropSpaceBeforePunct(s[n + 1..]));
      } else {
        SingleSuffix(s, 1);
        DropSpaceBeforePunctSingle(s[1..]);
        SingleHead(s);
        SingleAppend([s[0]], DropSpaceBeforePunct(s[1..]));
      }
    }
  }

  /** The `([,.!?;:])([A-Za-z0-9])` pass keeps single spacing. */
  lemma {:induction false} SpaceAfterPunctSingle(s: string)
    requires SingleSpaced(s)
    ensures SingleSpaced(SpaceAfterPunct(s))
    decreases |s|
  {
    if s != [] {
      if |s| >= 2 && IsPunct(s[0]) && IsAlnum(s[1]) {
        SingleSuffix(s, 2);
        SpaceAfterPunctSingle(s[2..]);
        var head := [s[0], ' ', s[1]];
        assert SingleSpaced(head);
        SingleAppend(head, SpaceAfterPunct(s[2..]));
      } else {
        SingleSuffix(s, 1);
        SpaceAfterPunctSingle(s[1..]);
        SingleHead(s);
        SingleAppend([s[0]], SpaceAfterPunct(s[1..]));
      }
    }
  }

  /** The `([!?.,])\1+` pass keeps single spacing. */
  lemma {:induction false} CollapseRepeatsSingle(s: string)
    requires SingleSpaced(s)
    ensures SingleSpaced(CollapseRepeats(s))
    decreases |s|
  {
    if s != [] {
      if |s| >= 2 && IsRepeatable(s[0]) && s[1] == s[0] {
        var n := LeadCount(s, c => c == s[0]);
        SingleSuffix(s, n);
        CollapseRepeatsSingle(s[n..]);
        SingleSolid([s[0]]);
        SingleAppend([s[0]], CollapseRepeats(s[n..]));
      } else {
        SingleSuffix(s, 1);
        CollapseRepeatsSingle(s[1..]);
        SingleHead(s);
        SingleAppend([s[0]], CollapseRepeats(s[1..]));
      }
    }
  }

  /** Straightening quotes touches neither white space nor [!?.,]. */
  lemma {:induction false} StraightenQuotesKeeps(s: string)
    ensures SingleSpaced(s) ==> SingleSpaced(StraightenQuotes(s))
    ensures NoRepeats(s) ==> NoRepeats(StraightenQuotes(s))
  {
    var r := StraightenQuotes(s);
    assert forall i | 0 <= i < |s| :: IsSpace(r[i]) ==> r[i] == s[i];
    assert forall i | 0 <= i < |s| :: IsRepeatable(r[i]) ==> r[i] == s[i];
  }

  /** The repeated-word pass keeps single spacing and adds no doubled
      [!?.,] character. */
  lemma {:induction false} DropRepeatedWordKeepsSpacing(s: string, afterWord: bool)
    requires SingleSpaced(s) && NoRepeats(s)
    ensures SingleSpaced(DropRepeatedWord(s, afterWord)) && NoRepeats(DropRepeatedWord(s, afterWord))
    decreases |s|
  {
    if s != [] {
      if afterWord || !IsWordChar(s[0]) {
        SingleSuffix(s, 1);
        NoRepeatsSuffix(s, 1);
        DropRepeatedWordKeepsSpacing(s[1..], IsWordChar(s[0]));
        CopyKeepsSpacing(s, afterWord);
      } else {
        var e := RepeatEnd(s);
        SingleSuffix(s, e);
        NoRepeatsSuffix(s, e);
        DropRepeatedWordKeepsSpacing(s[e..], true);
        WordKeepsSpacing(s);
      }
    }
  }

  /** A copied character in front of a well-spaced rest keeps the output
      well spaced. */
  lemma {:induction false} CopyKeepsSpacing(s: string, afterWord: bool)
    requires s != [] && (afterWord || !IsWordChar(s[0]))
    requires SingleSpaced(s) && NoRepeats(s)
    requires var t := DropRepeatedWord(s[1..], IsWordChar(s[0])); SingleSpaced(t) && NoRepeats(t)
    ensures SingleSpaced(DropRepeatedWord(s, afterWord)) && NoRepeats(DropRepeatedWord(s, afterWord))
  {
    var t := DropRepeatedWord(s[1..], IsWordChar(s[0]));
    DropRepeatedWordCopy(s, afterWord);
    SingleHead(s);
    if |s| > 1 {
      assert t[0] == s[1];
    }
    SingleAppend([s[0]], t);
    NoRepeatsAppend([s[0]], t);
  }

  /** A kept word in front of a well-spaced rest keeps the output well
      spaced. */
  lemma {:induction false} WordKeepsSpacing(s: string)
    requires s != [] && IsWordChar(s[0])
    requires var t := DropRepeatedWord(s[RepeatEnd(s)..], true); SingleSpaced(t) && NoRepeats(t)
    ensures SingleSpaced(DropRepeatedWord(s, false)) && NoRepeats(DropRepeatedWord(s, false))
  {
    var n := LeadCount(s, IsWordChar);
    var t := DropRepeatedWord(s[RepeatEnd(s)..], true);
    DropRepeatedWordAtWord(s);
    WordRunSolid(s);
    SingleAppend(s[..n], t);
    NoRepeatsAppend(s[..n], t);
  }

  /** The leading word holds neither white space nor [!?.,]. */
  lemma {:induction false} WordRunSolid(s: string)
    ensures var w := s[..LeadCount(s, IsWordChar)];
            && SingleSpaced(w) && NoRepeats(w)
            && forall i | 0 <= i < |w| :: IsWordChar(w[i])
  {
    LeadCountRun(s, IsWordChar);
    var w := s[..LeadCount(s, IsWordChar)];
    assert forall i | 0 <= i < |w| :: w[i] == s[i];
  }

  /** rule_based_clean's output is single-spaced and has no doubled [!?.,]
      character: the passes after the `\s+` and `([!?.,])\1+` ones undo
      neither. */
  lemma {:induction false} RuleBasedCleanSpacing(text: string)
    ensures SingleSpaced(RuleBasedClean(text)) && NoRepeats(RuleBasedClean(text))
  {
    var t1 := CollapseSpace(Strip(text));
    var t2 := DropSpaceBeforePunct(t1);
    var t3 := SpaceAfterPunct(t2);
    var t4 := CollapseRepeats(t3);
    var t5 := StraightenQuotes(t4);
    CollapseSpaceSingle(Strip(text));
    DropSpaceBeforePunctSingle(t1);
    SpaceAfterPunctSingle(t2);
    CollapseRepeatsSingle(t3);
    CollapseRepeatsDone(t3);
    StraightenQuotesKeeps(t4);
    DropRepeatedWordKeepsSpacing(t5, false);
  }

  /** rule_based_clean's output is stripped, holds no curly quote, has
      single spaces only and no doubled [!?.,] character. */
  lemma {:induction false} RuleBasedCleanShape(text: string)
    ensures Stripped(RuleBasedClean(text))
    ensures forall i | 0 <= i < |RuleBasedClean(text)| :: !IsCurlyQuote(RuleBasedClean(text)[i])
    ensures SingleSpaced(RuleBasedClean(text)) && NoRepeats(RuleBasedClean(text))
  {
    var t5 := StraightenQuotes(CollapseRepeats(SpaceAfterPunct(DropSpaceBeforePunct(CollapseSpace(Strip(text))))));
    assert RuleBasedClean(text) == DropRepeatedWord(t5, false);
    DropRepeatedWordKeepsAbsent(t5, false, IsCurlyQuote);
    PassesKeepStripped(Strip(text));
    RuleBasedCleanSpacing(text);
  }

  // ---------------------------------------------------------------------------
  // clean_json_recursively
  // ---------------------------------------------------------------------------

  /** clean_json_recursively(obj): rule_based_clean on every string value,
      keys and every other leaf left alone. */
  function CleanJson(j: Json): Json {
    match j
    case JString(s) => JString(RuleBasedClean(s))
    case JArray(items) => JArray(seq(|items|, k requires 0 <= k < |items| => CleanJson(items[k])))
    case JObject(fields) =>
      JObject(seq(|fields|, k requires 0 <= k < |fields| => Field(fields[k].key, CleanJson(fields[k].value))))
    case _ => j
  }

  /** The value with every string leaf emptied: keys, list lengths, nesting
      and non-string leaves. */
  function Skeleton(j: Json): Json {
    match j
    case JString(_) => JString([])
    case JArray(items) => JArray(seq(|items|, k requires 0 <= k < |items| => Skeleton(items[k])))
    case JObject(fields) =>
      JObject(seq(|fields|, k requires 0 <= k < |fields| => Field(fields[k].key, Skeleton(fields[k].value))))
    case _ => j
  }

  function Flatten<T>(xss: seq<seq<T>>): seq<T> {
    if xss == [] then [] else xss[0] + Flatten(xss[1..])
  }

  /** The string leaves (not the keys), left to right. */
  function Leaves(j: Json): seq<string> {
    match j
    case JString(s) => [s]
    case JArray(items) => Flatten(seq(|items|, k requires 0 <= k < |items| => Leaves(items[k])))
    case JObject(fields) => Flatten(seq(|fields|, k requires 0 <= k < |fields| => Leaves(fields[k].value)))
    case _ => []
  }

  function CleanAll(xs: seq<string>): (r: seq<string>)
    ensures |r| == |xs|
  {
    seq(|xs|, k requires 0 <= k < |xs| => RuleBasedClean(xs[k]))
  }

  lemma {:induction false} FlattenCleanAll(xss: seq<seq<string>>)
    ensures Flatten(seq(|xss|, k requires 0 <= k < |xss| => CleanAll(xss[k]))) == CleanAll(Flatten(xss))
    decreases |xss|
  {
    if xss != [] {
      var ys := seq(|xss|, k requires 0 <= k < |xss| => CleanAll(xss[k]));
      FlattenCleanAll(xss[1..]);
      assert ys[1..] == seq(|xss[1..]|, k requires 0 <= k < |xss[1..]| => CleanAll(xss[1..][k]));
      CleanAllAppend(xss[0], Flatten(xss[1..]));
    }
  }

  lemma {:induction false} CleanAllAppend(a: seq<string>, b: seq<string>)
    ensures CleanAll(a + b) == CleanAll(a) + CleanAll(b)
  {
    ImageAppend(RuleBasedClean, a, b, CleanAll(a), CleanAll(b), CleanAll(a + b));
  }

  /** clean_json_recursively keeps the shape (same keys in the same order,
      same list lengths, same non-string leaves) and rewrites exactly the
      string leaves, each by rule_based_clean. */
  lemma {:induction false} CleanJsonShape(j: Json)
    ensures Skeleton(CleanJson(j)) == Skeleton(j)
    ensures Leaves(CleanJson(j)) == CleanAll(Leaves(j))
    decreases j, 1
  {
    match j
    case JArray(_) => CleanArrayShape(j);
    case JObject(_) => CleanObjectShape(j);
    case _ =>
  }

  lemma {:induction false} CleanArrayShape(j: Json)
    requires j.JArray?
    ensures Skeleton(CleanJson(j)) == Skeleton(j)
    ensures Leaves(CleanJson(j)) == CleanAll(Leaves(j))
    decreases j, 0
  {
    var items := j.items;
    forall k | 0 <= k < |items|
      ensures Skeleton(CleanJson(items[k])) == Skeleton(items[k])
      ensures Leaves(CleanJson(items[k])) == CleanAll(Leaves(items[k]))
    {
      CleanJsonShape(items[k]);
    }
    var xss := seq(|items|, k requires 0 <= k < |items| => Leaves(items[k]));
    FlattenCleanAll(xss);
    var c := CleanJson(j).items;
    assert seq(|c|, k requires 0 <= k < |c| => Leaves(c[k]))
        == seq(|xss|, k requires 0 <= k < |xss| => CleanAll(xss[k]));
  }

  lemma {:induction false} CleanObjectShape(j: Json)
    requires j.JObject?
    ensures Skeleton(CleanJson(j)) == Skeleton(j)
    ensures Leaves(CleanJson(j)) == CleanAll(Leaves(j))
    decreases j, 0
  {
    var fields := j.fields;
    forall k | 0 <= k < |fields|
      ensures Skeleton(CleanJson(fields[k].value)) == Skeleton(fields[k].value)
      ensures Leaves(CleanJson(fields[k].value)) == CleanAll(Leaves(fields[k].value))
    {
      CleanJsonShape(fields[k].value);
    }
    var xss := seq(|fields|, k requires 0 <= k < |fields| => Leaves(fields[k].value));
    FlattenCleanAll(xss);
    var c := CleanJson(j).fields;
    assert seq(|c|, k requires 0 <= k < |c| => Leaves(c[k].value))
        == seq(|xss|, k requires 0 <= k < |xss| => CleanAll(xss[k]));
  }

  // ---------------------------------------------------------------------------
  // strip_markdown_fences
  // ---------------------------------------------------------------------------

  const Fence: string := "```"

  /** "```" starts at index `i` of `s`. */
  predicate FenceAt(s: string, i: nat) {
    i + 3 <= |s| && s[i] == '`' && s[i + 1] == '`' && s[i + 2] == '`'
  }

  /** No "```" anywhere in `s`. */
  predicate Fenceless(s: string) {
    forall i: nat | i < |s| :: !FenceAt(s, i)
  }

  /** `^```json` with re.IGNORECASE (ASCII case folding). */
  predicate OpensJsonFence(s: string) {
    |s| >= 7 && s[..3] == Fence && Lower(s[3..7]) == "json"
  }

  /** re.sub(r"\s*```$", "", s): `$` matches at the very end and also just
      before a final newline. */
  function DropClosingFence(s: string): string {
    if EndsWith(s, Fence) then RStripBy(s[..|s| - 3], IsSpace)
    else if EndsWith(s, Fence + "\n") then RStripBy(s[..|s| - 4], IsSpace) + "\n"
    else s
  }

  /** strip_markdown_fences(raw) */
  function StripMarkdownFences(raw: string): string {
    var s := Strip(raw);
    var s := if OpensJsonFence(s) then LStripBy(s[7..], IsSpace) else s;
    var s := if StartsWith(s, Fence) then LStripBy(s[3..], IsSpace) else s;
    var s := DropClosingFence(s);
    Strip(ReplaceAll(s, Fence, ""))
  }

  /** Where no "```" starts, the removal scan keeps the first character. */
  lemma {:induction false} RemoveFencesHead(t: string)
    requires t != [] && !FenceAt(t, 0)
    ensures ReplaceAll(t, Fence, "") == [t[0]] + ReplaceAll(t[1..], Fence, "")
  {
    if |t| >= 3 {
      assert t[..3] != Fence;
    }
  }

  /** Removing "```" never lets the text around a removal form a new one. */
  lemma {:induction false} RemoveFences(s: string)
    ensures Fenceless(ReplaceAll(s, Fence, ""))
    decreases |s|
  {
    var r := ReplaceAll(s, Fence, "");
    if |s| >= 3 {
      if s[..3] == Fence {
        assert r == ReplaceAll(s[3..], Fence, "");
        RemoveFences(s[3..]);
      } else {
        var t := s[1..];
        var rt := ReplaceAll(t, Fence, "");
        assert r == [s[0]] + rt;
        RemoveFences(t);
        assert !FenceAt(r, 0) by {
          if s[0] == '`' && s[1] == '`' {
            assert s[2] != '`';
            RemoveFencesHead(t);
            RemoveFencesHead(t[1..]);
            assert r[2] == s[2];
          }
        }
        forall i: nat | 1 <= i < |r|
          ensures !FenceAt(r, i)
        {
          assert !FenceAt(rt, i - 1);
        }
      }
    }
  }

  /** A piece of a text without "```" has none either. */
  lemma {:induction false} FencelessSlice(s: string, a: nat, b: nat)
    requires Fenceless(s) && a <= b <= |s|
    ensures Fenceless(s[a..b])
  {
    forall i: nat | i < b - a
      ensures !FenceAt(s[a..b], i)
    {
      assert !FenceAt(s, a + i);
    }
  }

  /** strip() returns a piece of its input. */
  lemma {:induction false} StripSlice(s: string) returns (a: nat, b: nat)
    ensures a <= b <= |s| && Strip(s) == s[a..b]
  {
    a := LeadCount(s, IsSpace);
    b := a + |Strip(s)|;
    assert Strip(s) == s[a..][..|Strip(s)|];
  }

  /** strip_markdown_fences returns stripped text with no "```" left. */
  lemma {:induction false} StripMarkdownFencesShape(raw: string)
    ensures Stripped(StripMarkdownFences(raw))
    ensures Fenceless(StripMarkdownFences(raw))
  {
    var s0 := Strip(raw);
    var s1 := if OpensJsonFence(s0) then LStripBy(s0[7..], IsSpace) else s0;
    var s2 := if StartsWith(s1, Fence) then LStripBy(s1[3..], IsSpace) else s1;
    var t := ReplaceAll(DropClosingFence(s2), Fence, "");
    RemoveFences(DropClosingFence(s2));
    var a, b := StripSlice(t);
    FencelessSlice(t, a, b);
  }

  // ---------------------------------------------------------------------------
  // preprocess_json
  // ---------------------------------------------------------------------------

  /** The class [\x00-\x08\x0b-\x0c\x0e-\x1f]: control characters other
      than tab, line feed and carriage return. */
  predicate IsDroppedControl(c: char) {
    c <= '\U{08}' || c == '\U{0B}' || c == '\U{0C}' || ('\U{0E}' <= c <= '\U{1F}')
  }

  /** What preprocess_json leaves none of. */
  predicate Unwanted(c: char) {
    IsDroppedControl(c) || IsCurlyQuote(c)
  }

  /** re.sub(r"[\x00-\x08\x0b-\x0c\x0e-\x1f]", "", s) */
  function DropControls(s: string): (r: string)
    ensures forall i | 0 <= i < |r| :: !IsDroppedControl(r[i])
    ensures |r| <= |s|
    ensures (forall i | 0 <= i < |s| :: !IsDroppedControl(s[i])) ==> r == s
    decreases |s|
  {
    if s == [] then []
    else if IsDroppedControl(s[0]) then DropControls(s[1..])
    else [s[0]] + DropControls(s[1..])
  }

  /** Where a string literal that opens just before index `j` closes: the
      index of the first quote that is not escaped, and the last bare line
      feed before it. None when the body cannot be read: a backslash before
      a line feed (`.` does not match it) or at the end, or no closing
      quote. */
  datatype Literal = Literal(close: nat, newline: Option<nat>)

  function ScanLiteral(s: string, j: nat, newline: Option<nat>): (r: Option<Literal>)
    ensures r.Some? ==> j <= r.value.close < |s| && s[r.value.close] == '"'
    ensures r.Some? && r.value.newline != newline ==>
      r.value.newline.Some? && j <= r.value.newline.value < r.value.close && s[r.value.newline.value] == '\n'
    decreases |s| - j
  {
    if j >= |s| then None
    else if s[j] == '"' then Some(Literal(j, newline))
    else if s[j] == '\\' then
      if j + 1 < |s| && s[j + 1] != '\n' then ScanLiteral(s, j + 2, newline) else None
    else ScanLiteral(s, j + 1, if s[j] == '\n' then Some(j) else newline)
  }

  /** The two-line string join of preprocess_json over `s[i..]`: a string
      literal `"` G1 `\n` G2 `"` (G1 and G2 made of characters other than
      quote and backslash, and of backslash escapes) becomes `"` G1 ` ` G2
      `"`. The greedy G1 puts the split at the last bare line feed, so only
      that one line feed of the literal becomes a space. */
  function JoinLinesFrom(s: string, i: nat): (r: string)
    requires i <= |s|
    ensures |r| == |s| - i
    decreases |s| - i
  {
    if i == |s| then []
    else
      var step := JoinPieceAt(s, i);
      step.0 + JoinLinesFrom(s, step.1)
  }

  /** One step of the join at `i`: what it emits and where it goes on. A
      quote that opens a literal with a bare line feed emits the whole
      literal with that line feed turned into a space; anything else is
      copied. */
  function JoinPieceAt(s: string, i: nat): (r: (string, nat))
    requires i < |s|
    ensures i < r.1 <= |s| && |r.0| == r.1 - i
  {
    var lit := ScanLiteral(s, i + 1, None);
    if s[i] == '"' && lit.Some? && lit.value.newline.Some? then
      var p, q := lit.value.newline.value, lit.value.close;
      (s[i..p] + " " + s[p + 1..q + 1], q + 1)
    else ([s[i]], i + 1)
  }

  function JoinLines(s: string): string {
    JoinLinesFrom(s, 0)
  }

  /** `b` is `a` with some line feeds turned into spaces. */
  predicate NewlinesOnly(a: string, b: string) {
    |a| == |b| && forall k | 0 <= k < |a| :: b[k] == a[k] || (a[k] == '\n' && b[k] == ' ')
  }

  lemma {:induction false} NewlinesOnlyAppend(a1: string, b1: string, a2: string, b2: string)
    requires NewlinesOnly(a1, b1) && NewlinesOnly(a2, b2)
    ensures NewlinesOnly(a1 + a2, b1 + b2)
  {
    var a, b := a1 + a2, b1 + b2;
    forall k | |a1| <= k < |a|
      ensures b[k] == a[k] || (a[k] == '\n' && b[k] == ' ')
    {
      assert a[k] == a2[k - |a1|] && b[k] == b2[k - |a1|];
    }
  }

  /** One joined literal: the line feed at `p` becomes a space. */
  lemma {:induction false} JoinOne(s: string, i: nat, p: nat, q: nat)
    requires i <= p <= q < |s| && s[p] == '\n'
    ensures NewlinesOnly(s[i..q + 1], s[i..p] + " " + s[p + 1..q + 1])
  {
    var b := s[i..p] + " " + s[p + 1..q + 1];
    forall k | 0 <= k < q + 1 - i
      ensures b[k] == s[i..q + 1][k] || (s[i..q + 1][k] == '\n' && b[k] == ' ')
    {
      if k < p - i {
        assert b[k] == s[i + k];
      } else if k > p - i {
        assert b[k] == s[p + 1..q + 1][k - (p - i) - 1];
      }
    }
  }

  /** One step turns at most the literal's line feed into a space. */
  lemma {:induction false} JoinPieceSpec(s: string, i: nat)
    requires i < |s|
    ensures NewlinesOnly(s[i..JoinPieceAt(s, i).1], JoinPieceAt(s, i).0)
  {
    var lit := ScanLiteral(s, i + 1, None);
    if s[i] == '"' && lit.Some? && lit.value.newline.Some? {
      JoinOne(s, i, lit.value.newline.value, lit.value.close);
    } else {
      assert s[i..i + 1] == [s[i]];
    }
  }

  /** The join turns line feeds into spaces and changes nothing else. */
  lemma {:induction false} JoinLinesFromSpec(s: string, i: nat)
    requires i <= |s|
    ensures NewlinesOnly(s[i..], JoinLinesFrom(s, i))
    decreases |s| - i
  {
    if i < |s| {
      var step := JoinPieceAt(s, i);
      JoinLinesFromSpec(s, step.1);
      JoinPieceSpec(s, i);
      SliceSplit(s, i, step.1);
      NewlinesOnlyAppend(s[i..step.1], step.0, s[step.1..], JoinLinesFrom(s, step.1));
    }
  }

  /** raw.replace("\r\n", "\n") */
  function NormalizeNewlines(s: string): string {
    ReplaceAll(s, "\r\n", "\n")
  }

  /** raw.replace("\\ ", "\\\\ "): a backslash before a space is doubled. */
  function DoubleBackslashSpace(s: string): string {
    ReplaceAll(s, "\\ ", "\\\\ ")
  }

  /** raw.replace("```json", "").replace("```", "") */
  function RemoveFenceText(s: string): string {
    ReplaceAll(ReplaceAll(s, "```json", ""), Fence, "")
  }

  /** preprocess_json(raw) */
  function PreprocessJson(raw: string): string {
    Strip(RemoveFenceText(JoinLines(DoubleBackslashSpace(StraightenQuotes(DropControls(NormalizeNewlines(raw)))))))
  }

  /** strip() keeps only characters its input had. */
  lemma {:induction false} StripKeepsAbsent(s: string, p: char -> bool)
    requires forall i | 0 <= i < |s| :: !p(s[i])
    ensures forall i | 0 <= i < |Strip(s)| :: !p(Strip(s)[i])
  {
    var a, b := StripSlice(s);
    assert forall i | 0 <= i < |Strip(s)| :: Strip(s)[i] == s[a + i];
  }

  /** preprocess_json returns stripped text with no "```", none of the
      removed control characters and no curly quote. */
  lemma {:induction false} PreprocessJsonShape(raw: string)
    ensures var r := PreprocessJson(raw);
            && Stripped(r) && Fenceless(r)
            && forall i | 0 <= i < |r| :: !IsDroppedControl(r[i]) && !IsCurlyQuote(r[i])
  {
    var s3 := StraightenQuotes(DropControls(NormalizeNewlines(raw)));
    assert forall i | 0 <= i < |s3| :: !Unwanted(s3[i]);
    var s4 := DoubleBackslashSpace(s3);
    ReplaceAllKeepsAbsent(s3, "\\ ", "\\\\ ", Unwanted);
    var s5 := JoinLines(s4);
    JoinLinesFromSpec(s4, 0);
    assert forall i | 0 <= i < |s5| :: !Unwanted(s5[i]) by {
      assert s4[0..] == s4;
    }
    var s6 := ReplaceAll(s5, "```json", "");
    ReplaceAllKeepsAbsent(s5, "```json", "", Unwanted);
    var s7 := ReplaceAll(s6, Fence, "");
    ReplaceAllKeepsAbsent(s6, Fence, "", Unwanted);
    RemoveFences(s6);
    var a, b := StripSlice(s7);
    FencelessSlice(s7, a, b);
    StripKeepsAbsent(s7, Unwanted);
  }

  /** A replacement whose pattern's first character does not occur changes
      nothing. */
  lemma {:induction false} ReplaceAllAbsent(s: string, pat: string, rep: string)
    requires |pat| > 0
    requires forall i | 0 <= i < |s| :: s[i] != pat[0]
    ensures ReplaceAll(s, pat, rep) == s
    decreases |s|
  {
    if |s| >= |pat| {
      assert s[..|pat|][0] == s[0];
      ReplaceAllAbsent(s[1..], pat, rep);
    }
  }

  /** No carriage return, line feed, double quote, backquote, removed
      control character or curly quote. */
  predicate Plain(c: char) {
    c != '\r' && c != '\n' && c != '"' && c != '`' && !Unwanted(c)
  }

  predicate NotPlain(c: char) { !Plain(c) }

  /** The join leaves text without line feeds alone. */
  lemma {:induction false} JoinLinesNoNewline(t: string)
    requires forall i | 0 <= i < |t| :: t[i] != '\n'
    ensures JoinLines(t) == t
  {
    JoinLinesFromSpec(t, 0);
    assert t[0..] == t;
  }

  /** On stripped text made of plain characters only the backslash-space
      rewrite of preprocess_json has an effect. */
  lemma {:induction false} PreprocessPlain(s: string)
    requires Stripped(s)
    requires forall i | 0 <= i < |s| :: Plain(s[i])
    ensures PreprocessJson(s) == Strip(DoubleBackslashSpace(s))
  {
    var t := DoubleBackslashSpace(s);
    ReplaceAllAbsent(s, "\r\n", "\n");
    assert DropControls(s) == s;
    assert StraightenQuotes(s) == s;
    ReplaceAllKeepsAbsent(s, "\\ ", "\\\\ ", NotPlain);
    JoinLinesNoNewline(t);
    ReplaceAllAbsent(t, "```json", "");
    ReplaceAllAbsent(t, Fence, "");
  }

  /** Letters, digits, spaces and backslashes are plain. */
  predicate Simple(c: char) {
    IsAlnum(c) || c == ' ' || c == '\\'
  }

  lemma {:induction false} PreprocessSimple(s: string)
    requires Stripped(s)
    requires forall i | 0 <= i < |s| :: Simple(s[i])
    ensures PreprocessJson(s) == Strip(DoubleBackslashSpace(s))
  {
    PreprocessPlain(s);
  }

  lemma {:induction false} PreprocessOnce()
    ensures PreprocessJson("\\ a") == "\\\\ a"
  {
    var x, y := "\\ a", "\\\\ a";
    var pat, rep := "\\ ", "\\\\ ";
    assert ReplaceAll("a", pat, rep) == "a";
    PreprocessSimple(x);
    assert x[..2] == pat && x[2..] == "a";
    assert DoubleBackslashSpace(x) == rep + "a" == y;
    StripStripped(y);
  }

  lemma {:induction false} DoubleTwice()
    ensures DoubleBackslashSpace("\\\\ a") == "\\\\\\ a"
  {
    var x, y := "\\ a", "\\\\ a";
    var pat, rep := "\\ ", "\\\\ ";
    assert ReplaceAll("a", pat, rep) == "a";
    assert x[..2] == pat && x[2..] == "a";
    assert ReplaceAll(x, pat, rep) == y;
    assert y == ['\\', '\\', ' ', 'a'];
    assert y[..2][1] != pat[1];
    assert y[1..] == x;
    assert ReplaceAll(y, pat, rep) == [y[0]] + ReplaceAll(y[1..], pat, rep);
  }

  lemma {:induction false} PreprocessTwice()
    ensures PreprocessJson("\\\\ a") == "\\\\\\ a"
  {
    var y, z := "\\\\ a", "\\\\\\ a";
    assert y == ['\\', '\\', ' ', 'a'];
    PreprocessSimple(y);
    DoubleTwice();
    StripStripped(z);
  }

  /** preprocess_json is not idempotent: each run doubles the backslash
      before a space again. */
  lemma {:induction false} PreprocessNotIdempotent()
    ensures PreprocessJson("\\ a") == "\\\\ a"
    ensures PreprocessJson(PreprocessJson("\\ a")) == "\\\\\\ a"
  {
    PreprocessOnce();
    PreprocessTwice();
  }

  // ---------------------------------------------------------------------------
  // try_clean_and_parse
  // ---------------------------------------------------------------------------

  /** What try_clean_and_parse returns: the cleaned value (None when json.loads
      rejects the text) and the text that was given to json.loads. */
  datatype Cleaned = Cleaned(data: Option<Json>, text: string)

  /** try_clean_and_parse(raw): fences stripped, preprocess_json, json.loads,
      then clean_json_recursively on what was parsed. */
  function TryCleanAndParse(raw: string, parse: string -> ParseResult): (r: Cleaned)
    ensures r.text == PreprocessJson(StripMarkdownFences(raw))
    ensures Stripped(r.text) && Fenceless(r.text)
    ensures r.data.None? <==> parse(r.text).Failed?
    ensures r.data.Some? ==> r.data.value == CleanJson(parse(r.text).value)
    ensures r.data.Some? ==> Skeleton(r.data.value) == Skeleton(parse(r.text).value)
    ensures r.data.Some? ==> Leaves(r.data.value) == CleanAll(Leaves(parse(r.text).value))
  {
    var text := PreprocessJson(StripMarkdownFences(raw));
    PreprocessJsonShape(StripMarkdownFences(raw));
    match parse(text)
    case Failed(_) => Cleaned(None, text)
    case Parsed(v) => CleanJsonShape(v); Cleaned(Some(CleanJson(v)), text)
  }

  /** Cleaning keeps Python truthiness except for a bare string, which
      rule_based_clean may empty. */
  lemma {:induction false} CleanKeepsTruthy(j: Json)
    requires !j.JString?
    ensures Truthy(CleanJson(j)) == Truthy(j)
  {
  }

  // ---------------------------------------------------------------------------
  // clean_and_fix_json
  // ---------------------------------------------------------------------------

  predicate IsCloser(c: char) { c == ']' || c == '}' }

  predicate IsQuote(c: char) { c == '"' || c == '\'' }

  /** Step 2: `',` becomes `",`; U+2019 and the low quote U+201A become `'`. */
  function FixQuotePatterns(s: string): string {
    ReplaceChar(ReplaceChar(ReplaceAll(s, "',", "\","), '\U{2019}', '\''), '\U{201A}', '\'')
  }

  /** Step 3, re.sub(r",\s*([\]}])", r"\1"): a comma followed by white space
      and a closing bracket gives way to the bracket. One pass: the bracket
      is not looked at again, so in ",,]" only the second comma goes. */
  function DropTrailingCommas(s: string): (r: string)
    decreases |s|
  {
    if s == [] then []
    else
      var k := 1 + LeadCount(s[1..], IsSpace);
      if s[0] == ',' && k < |s| && IsCloser(s[k]) then
        [s[k]] + DropTrailingCommas(s[k + 1..])
      else
        assert s == [s[0]] + s[1..];
        [s[0]] + DropTrailingCommas(s[1..])
  }

  /** Step 3 only removes characters. */
  lemma {:induction false} DropTrailingCommasShrinks(s: string)
    ensures multiset(DropTrailingCommas(s)) <= multiset(s)
    decreases |s|
  {
    if s != [] {
      var k := DropTrailingCommasStep(s);
      DropTrailingCommasShrinks(s[k + 1..]);
      ShrinkFrom(s, k, DropTrailingCommas(s[k + 1..]), DropTrailingCommas(s));
    }
  }

  /** One step of step 3 keeps one character `s[k]` and goes on after it:
      the bracket after a dropped comma, or else the first character. */
  lemma {:induction false} DropTrailingCommasStep(s: string) returns (k: nat)
    requires s != []
    ensures k < |s| && DropTrailingCommas(s) == [s[k]] + DropTrailingCommas(s[k + 1..])
  {
    k := 1 + LeadCount(s[1..], IsSpace);
    if !(s[0] == ',' && k < |s| && IsCloser(s[k])) {
      k := 0;
    }
  }

  /** Keeping `s[k]` and a shrunk rest after it shrinks `s`. */
  lemma {:induction false} ShrinkFrom(s: string, k: nat, rt: string, r: string)
    requires k < |s| && multiset(rt) <= multiset(s[k + 1..]) && r == [s[k]] + rt
    ensures multiset(r) <= multiset(s)
  {
    assert s[k..] == [s[k]] + s[k + 1..];
    assert s == s[..k] + s[k..];
  }

  /** Step 4, re.sub(r"\"\s*\"", "\""): two quotes with only white space
      between them become one. */
  function MergeQuotes(s: string): (r: string)
    ensures multiset(r) <= multiset(s)
    decreases |s|
  {
    if s == [] then []
    else
      var k := 1 + LeadCount(s[1..], IsSpace);
      if s[0] == '"' && k < |s| && s[k] == '"' then
        assert s == s[..k] + [s[k]] + s[k + 1..];
        [s[k]] + MergeQuotes(s[k + 1..])
      else
        assert s == [s[0]] + s[1..];
        [s[0]] + MergeQuotes(s[1..])
  }

  /** A closing brace at the end of `s`, or just before a final newline:
      where `}$` matches. */
  predicate BraceAtEnd(s: string, q: nat) {
    q < |s| && s[q] == '}' && (q == |s| - 1 || (q == |s| - 2 && s[|s| - 1] == '\n'))
  }

  /** A match of r"[\"']\s*}$" from the quote at `p` to the brace at `q`. */
  predicate StrayQuoteAt(s: string, p: nat, q: nat) {
    p < q && BraceAtEnd(s, q) && IsQuote(s[p]) && forall i | p < i < q :: IsSpace(s[i])
  }

  /** Where r"[\"']\s*}$" matches, if anywhere: the quote and the brace. */
  function StrayQuote(s: string): (m: Option<(nat, nat)>)
    ensures m.Some? ==> StrayQuoteAt(s, m.value.0, m.value.1)
  {
    var q := if EndsWith(s, "}") then |s| - 1 else if EndsWith(s, "}\n") then |s| - 2 else -1;
    if q < 0 then None
    else
      var w := TrailCount(s[..q], IsSpace);
      TrailCountRun(s[..q], IsSpace);
      if w < q && IsQuote(s[q - w - 1]) then Some((q - w - 1, q)) else None
  }

  /** StrayQuote finds the match whenever there is one. */
  lemma {:induction false} StrayQuoteFound(s: string, p: nat, q: nat)
    requires StrayQuoteAt(s, p, q)
    ensures StrayQuote(s) == Some((p, q))
  {
    assert q == (if EndsWith(s, "}") then |s| - 1 else |s| - 2);
    var t := s[..q];
    var w := TrailCount(t, IsSpace);
    TrailCountRun(t, IsSpace);
  }

  /** Step 6, re.sub(r"[\"']\s*}$", "}"): a quote followed by nothing but
      white space before the final brace is removed with that white space. */
  function DropStrayQuote(s: string): (r: string)
    ensures multiset(r) <= multiset(s)
    ensures r == s <==> StrayQuote(s).None?
  {
    match StrayQuote(s)
    case None => s
    case Some((p, q)) =>
      assert s == s[..p] + s[p..q] + s[q..];
      s[..p] + s[q..]
  }

  /** The last-resort rewrite, re.sub(r'":\s*"([^"]*?)"', ...): `":`, white
      space and a quoted run become `": "` and the run. The run holds no
      quote, so the escaping of quotes inside it never applies. */
  function SpaceAfterKey(s: string): (r: string)
    decreases |s|
  {
    if |s| < 2 then s
    else
      var step := KeyPieceAt(s);
      step.0 + SpaceAfterKey(s[step.1..])
  }

  /** One step of the rewrite: what it emits for the start of `s` and how
      much of `s` that consumes. */
  function KeyPieceAt(s: string): (r: (string, nat))
    requires |s| >= 2
    ensures 1 <= r.1 <= |s|
  {
    var k := 2 + LeadCount(s[2..], IsSpace);
    if s[0] == '"' && s[1] == ':' && k < |s| && s[k] == '"' then
      match IndexOf(s, '"', k + 1)
      case Some(e) => ("\": \"" + s[k + 1..e] + "\"", e + 1)
      case None => ([s[0]], 1)
    else ([s[0]], 1)
  }

  /** Steps 1 to 6 of clean_and_fix_json. Step 5 rewrites a quote as a
      quote and so leaves the text as it is. */
  function FixStage(raw: string): string {
    DropStrayQuote(MergeQuotes(DropTrailingCommas(FixQuotePatterns(StraightenQuotes(raw)))))
  }

  /** What clean_and_fix_json returns: the value, the text it was parsed
      from, and the message of the last parse error. */
  datatype Repair = Repair(data: Option<Json>, text: string, error: Option<string>)

  /** clean_and_fix_json(raw): parse the repaired text; if that fails, parse
      it once more after the last-resort rewrite; if that fails too, return
      the first-stage text with the second error. */
  function CleanAndFixJson(raw: string, parse: string -> ParseResult): (r: Repair)
    ensures r.data.None? <==> r.error.Some?
    ensures r.data.Some? ==> parse(r.text) == Parsed(r.data.value)
    ensures parse(FixStage(raw)).Parsed? ==> r.text == FixStage(raw) && r.data.Some?
    ensures r.data.Some? && r.text != FixStage(raw) ==>
              parse(FixStage(raw)).Failed? && r.text == SpaceAfterKey(FixStage(raw))
    ensures r.error.Some? <==> parse(FixStage(raw)).Failed? && parse(SpaceAfterKey(FixStage(raw))).Failed?
    ensures r.error.Some? ==>
              r.text == FixStage(raw) && parse(SpaceAfterKey(FixStage(raw))) == Failed(r.error.value)
  {
    var cleaned := FixStage(raw);
    match parse(cleaned)
    case Parsed(v) => Repair(Some(v), cleaned, None)
    case Failed(_) =>
      var cleaned2 := SpaceAfterKey(cleaned);
      match parse(cleaned2)
      case Parsed(v) => Repair(Some(v), cleaned2, None)
      case Failed(e2) => Repair(None, cleaned, Some(e2))
  }

  /** Characters that steps 3 and 4 never remove. */
  predicate Solid(c: char) { c != ',' && c != '"' && NotSpace(c) }

  /** A comma or a quote and the white space after it hold nothing solid. */
  lemma {:induction false} NothingSolid(s: string)
    requires s != [] && !Solid(s[0])
    ensures Filter(s[..1 + LeadCount(s[1..], IsSpace)], Solid) == []
  {
    var t := s[1..];
    var n := LeadCount(t, IsSpace);
    LeadCountRun(t, IsSpace);
    FilterNone(t[..n], Solid);
    assert s[..1 + n] == [s[0]] + t[..n];
    FilterCons(s[0], t[..n], Solid);
  }

  /** Dropping a prefix without a character of `p` keeps those of `p`. */
  lemma {:induction false} SkipStep(s: string, k: nat, r: string, rt: string, p: char -> bool)
    requires 1 <= k < |s| && Filter(s[..k], p) == []
    requires r == [s[k]] + rt && Filter(rt, p) == Filter(s[k + 1..], p)
    ensures Filter(r, p) == Filter(s, p)
  {
    FilterCons(s[k], rt, p);
    assert s[k..] == [s[k]] + s[k + 1..];
    FilterCons(s[k], s[k + 1..], p);
    assert s == s[..k] + s[k..];
    FilterAppend(s[..k], s[k..], p);
  }

  /** Copying the first character keeps the characters of `p`. */
  lemma {:induction false} CopyStep(s: string, r: string, rt: string, p: char -> bool)
    requires s != []
    requires r == [s[0]] + rt && Filter(rt, p) == Filter(s[1..], p)
    ensures Filter(r, p) == Filter(s, p)
  {
    FilterCons(s[0], rt, p);
    assert s == [s[0]] + s[1..];
    FilterCons(s[0], s[1..], p);
  }

  /** Removing a trailing comma removes only the comma and white space. */
  lemma {:induction false} DropTrailingCommasKeeps(s: string)
    ensures Filter(DropTrailingCommas(s), Solid) == Filter(s, Solid)
    decreases |s|
  {
    if s != [] {
      var k := 1 + LeadCount(s[1..], IsSpace);
      if s[0] == ',' && k < |s| && IsCloser(s[k]) {
        DropTrailingCommasKeeps(s[k + 1..]);
        NothingSolid(s);
        SkipStep(s, k, DropTrailingCommas(s), DropTrailingCommas(s[k + 1..]), Solid);
      } else {
        DropTrailingCommasKeeps(s[1..]);
        CopyStep(s, DropTrailingCommas(s), DropTrailingCommas(s[1..]), Solid);
      }
    }
  }

  /** Merging two quotes removes only the second quote and white space. */
  lemma {:induction false} MergeQuotesKeeps(s: string)
    ensures Filter(MergeQuotes(s), Solid) == Filter(s, Solid)
    decreases |s|
  {
    if s != [] {
      var k := 1 + LeadCount(s[1..], IsSpace);
      if s[0] == '"' && k < |s| && s[k] == '"' {
        MergeQuotesKeeps(s[k + 1..]);
        NothingSolid(s);
        SkipStep(s, k, MergeQuotes(s), MergeQuotes(s[k + 1..]), Solid);
      } else {
        MergeQuotesKeeps(s[1..]);
        CopyStep(s, MergeQuotes(s), MergeQuotes(s[1..]), Solid);
      }
    }
  }

  /** A comma before white space and a bracket goes. */
  lemma {:induction false} TrailingCommaExample()
    ensures DropTrailingCommas(", ]") == "]"
  {
    var a := ", ]";
    assert a[1..] == " ]" && a[1..][1..] == "]";
    assert LeadCount(a[1..], IsSpace) == 1;
    assert a[3..] == [];
  }

  /** Of two commas before a bracket only the second goes. */
  lemma {:induction false} DoubleCommaExample(c: char)
    requires IsCloser(c)
    ensures DropTrailingCommas([',', ',', c]) == [',', c]
  {
    assert DropTrailingCommas([',', c]) == [c] by {
      CommaBeforeCloser(c, []);
      assert [',', c] + [] == [',', c];
    }
    assert DropTrailingCommas([',', ',', c]) == [','] + DropTrailingCommas([',', c]) by {
      CommaBeforeComma(',', [',', c]);
      assert [','] + [',', c] == [',', ',', c];
    }
  }

  /** A comma right before a bracket goes. */
  lemma {:induction false} CommaBeforeCloser(c: char, t: string)
    requires IsCloser(c)
    ensures DropTrailingCommas([',', c] + t) == [c] + DropTrailingCommas(t)
  {
    var s := [',', c] + t;
    assert s[1..][0] == c;
    assert LeadCount(s[1..], IsSpace) == 0;
    assert s[2..] == t;
  }

  /** A character followed by a comma is kept. */
  lemma {:induction false} CommaBeforeComma(x: char, t: string)
    requires t != [] && t[0] == ','
    ensures DropTrailingCommas([x] + t) == [x] + DropTrailingCommas(t)
  {
    var s := [x] + t;
    assert s[1..] == t;
    assert LeadCount(t, IsSpace) == 0;
  }

  /** Step 4 also turns the empty string `""` into a lone quote. */
  lemma {:induction false} MergeQuotesEmptyString()
    ensures MergeQuotes("\"\"") == "\""
  {
    var a := "\"\"";
    assert a[1..] == "\"" && a[2..] == [];
    assert LeadCount(a[1..], IsSpace) == 0;
  }

  /** A stray quote before the final brace goes, and so does the white space
      after it. */
  lemma {:induction false} DropStrayQuoteExample()
    ensures DropStrayQuote("1' }") == "1}"
  {
    StrayQuoteFound("1' }", 1, 3);
  }

  /** `":` followed by white space is `":` without its white space. */
  lemma {:induction false} KeyHead(s: string, k: nat)
    requires 2 <= |s| && s[0] == '"' && s[1] == ':' && k == 2 + LeadCount(s[2..], IsSpace)
    ensures NoSpace(s[..k]) == "\":"
  {
    LeadCountRun(s[2..], IsSpace);
    assert forall i | 2 <= i < k :: IsSpace(s[..k][i]) by {
      assert forall i | 2 <= i < k :: s[..k][i] == s[2..][i - 2];
    }
    NoSpaceSplit(s[..k], 0, 2);
    assert s[..k][..2] == "\":";
    ColonNoSpace();
  }

  lemma {:induction false} ColonNoSpace()
    ensures NoSpace("\":") == "\":"
    ensures NoSpace("\": ") == "\":"
  {
    FilterCons('"', ":", NotSpace);
    FilterCons(':', [], NotSpace);
    assert "\":" == ['"'] + ":";
    assert ":" == [':'] + [];
    assert "\": " == "\":" + " ";
    NoSpaceAppend("\":", " ");
    NoSpaceOfSpaces(" ");
  }

  /** `":`, white space and a quoted run, rewritten to `": "` and the run,
      keep their non-space characters; a copied character is itself. */
  lemma {:induction false} KeyPieceKeeps(s: string)
    requires |s| >= 2
    ensures NoSpace(KeyPieceAt(s).0) == NoSpace(s[..KeyPieceAt(s).1])
  {
    var k := 2 + LeadCount(s[2..], IsSpace);
    if s[0] == '"' && s[1] == ':' && k < |s| && s[k] == '"' && IndexOf(s, '"', k + 1).Some? {
      var e := IndexOf(s, '"', k + 1).value;
      var mid := s[k..e + 1];
      KeyHead(s, k);
      ColonNoSpace();
      KeyLayout(s, k, e, KeyPieceAt(s).0);
      NoSpaceAppend("\": ", mid);
      NoSpaceAppend(s[..k], mid);
    } else {
      assert s[..1] == [s[0]];
    }
  }

  lemma {:induction false} KeyLayout(s: string, k: nat, e: nat, piece: string)
    requires k < e < |s| && s[k] == '"' && s[e] == '"'
    requires piece == "\": \"" + s[k + 1..e] + "\""
    ensures piece == "\": " + s[k..e + 1]
    ensures s[..e + 1] == s[..k] + s[k..e + 1]
  {
    assert s[k..e + 1] == [s[k]] + s[k + 1..e] + [s[e]];
  }

  /** The last-resort rewrite changes white space only: it adds no
      backslash and drops no quote. */
  lemma {:induction false} SpaceAfterKeyKeeps(s: string)
    ensures NoSpace(SpaceAfterKey(s)) == NoSpace(s)
    decreases |s|
  {
    if |s| >= 2 {
      var step := KeyPieceAt(s);
      SpaceAfterKeyKeeps(s[step.1..]);
      KeyPieceKeeps(s);
      NoSpaceAppend(step.0, SpaceAfterKey(s[step.1..]));
      NoSpaceAppend(s[..step.1], s[step.1..]);
      SplitAt(s, step.1);
    }
  }

  /** Typographic quotes, including the low quote U+201A. */
  predicate IsTypographicQuote(c: char) { IsCurlyQuote(c) || c == '\U{201A}' }

  /** Steps 1 and 2 leave no typographic quote, and the later steps only
      remove characters. */
  lemma {:induction false} FixStageNoTypographicQuote(raw: string)
    ensures forall i | 0 <= i < |FixStage(raw)| :: !IsTypographicQuote(FixStage(raw)[i])
  {
    var s1 := StraightenQuotes(raw);
    var s2a := ReplaceAll(s1, "',", "\",");
    ReplaceAllKeepsAbsent(s1, "',", "\",", IsCurlyQuote);
    var s2 := FixQuotePatterns(s1);
    assert forall i | 0 <= i < |s2| :: !IsTypographicQuote(s2[i]);
    var s3 := DropTrailingCommas(s2);
    DropTrailingCommasShrinks(s2);
    SubMultisetKeepsAbsent(s3, s2, IsTypographicQuote);
    var s4 := MergeQuotes(s3);
    SubMultisetKeepsAbsent(s4, s3, IsTypographicQuote);
    SubMultisetKeepsAbsent(DropStrayQuote(s4), s4, IsTypographicQuote);
  }

  /** Whichever attempt succeeds, the text returned differs from the first
      stage in white space only. */
  lemma {:induction false} CleanAndFixText(raw: string, parse: string -> ParseResult)
    ensures NoSpace(CleanAndFixJson(raw, parse).text) == NoSpace(FixStage(raw))
  {
    SpaceAfterKeyKeeps(FixStage(raw));
  }
}

/**
  Python string primitives used by the syllabus extractor and the JSON repair
  passes: character classes, strip/lstrip/rstrip, prefix and substring tests,
  str.replace, str.split and str.join.

  Characters are Unicode scalar values. `IsSpace` is exactly the set that
  Python's str.isspace() accepts (and that `\s` and str.split() use); the
  word class `\w`, str.isdigit(), str.lower() and str.title() are modelled on
  ASCII only.
*/
module Text {

  datatype Option<T> = None | Some(value: T) {
    function GetOr(default: T): T {
      match this
      case Some(v) => v
      case None => default
    }
  }

  // ---------------------------------------------------------------------------
  // Sequence regrouping
  // ---------------------------------------------------------------------------

  lemma {:induction false} Reassociate<T>(xs: seq<T>, ys: seq<T>, zs: seq<T>)
    ensures xs + (ys + zs) == (xs + ys) + zs
  {
  }

  lemma {:induction false} SplitAt<T>(s: seq<T>, n: nat)
    requires n <= |s|
    ensures s[..n] + s[n..] == s
  {
  }

  /** No element of `xs` nor of `ys` satisfies `p`, so none of `xs + ys` does. */
  lemma {:induction false} NoneInAppend<T>(xs: seq<T>, ys: seq<T>, p: T -> bool)
    requires forall i | 0 <= i < |xs| :: !p(xs[i])
    requires forall i | 0 <= i < |ys| :: !p(ys[i])
    ensures forall i | 0 <= i < |xs + ys| :: !p((xs + ys)[i])
  {
    forall i | 0 <= i < |xs + ys|
      ensures !p((xs + ys)[i])
    {
      if i >= |xs| {
        assert (xs + ys)[i] == ys[i - |xs|];
      }
    }
  }

  /** Some element of a non-empty `xs` satisfies `p` when its head does or
      some element of its tail does. */
  lemma {:induction false} ExistsShift<T>(xs: seq<T>, p: T -> bool)
    requires xs != []
    ensures (exists k | 0 <= k < |xs| :: p(xs[k])) <==> p(xs[0]) || exists k | 0 <= k < |xs[1..]| :: p(xs[1..][k])
  {
    if k :| 0 <= k < |xs| && p(xs[k]) {
      if k > 0 {
        assert xs[1..][k - 1] == xs[k];
      }
    }
    if k :| 0 <= k < |xs[1..]| && p(xs[1..][k]) {
      assert xs[k + 1] == xs[1..][k];
    }
  }

  /** Three element-wise images under `f`: the image of `a + b` is the
      image of `a` followed by the image of `b`. */
  lemma {:induction false} ImageAppend<A, B>(f: A -> B, a: seq<A>, b: seq<A>, ra: seq<B>, rb: seq<B>, r: seq<B>)
    requires |ra| == |a| && forall k | 0 <= k < |a| :: ra[k] == f(a[k])
    requires |rb| == |b| && forall k | 0 <= k < |b| :: rb[k] == f(b[k])
    requires |r| == |a + b| && forall k | 0 <= k < |a + b| :: r[k] == f((a + b)[k])
    ensures r == ra + rb
  {
    forall k | 0 <= k < |r|
      ensures r[k] == (ra + rb)[k]
    {
      if k >= |a| {
        assert (a + b)[k] == b[k - |a|];
      }
    }
  }

  lemma {:induction false} SliceSplit<T>(s: seq<T>, i: nat, j: nat)
    requires i <= j <= |s|
    ensures s[i..] == s[i..j] + s[j..]
  {
  }

  lemma {:induction false} SuffixPrefix<T>(s: seq<T>, a: nat, m: nat)
    requires a + m <= |s|
    ensures s[a..][..m] == s[a..a + m]
  {
  }

  // ---------------------------------------------------------------------------
  // Character classes
  // ---------------------------------------------------------------------------

  /** Python's str.isspace() for one character (the full Unicode list). */
  predicate IsSpace(c: char) {
    ('\t' <= c <= '\r') || ('\U{1C}' <= c <= ' ') || c == '\U{85}' || c == '\U{A0}'
    || c == '\U{1680}' || ('\U{2000}' <= c <= '\U{200A}') || c == '\U{2028}' || c == '\U{2029}'
    || c == '\U{202F}' || c == '\U{205F}' || c == '\U{3000}'
  }

  predicate NotSpace(c: char) { !IsSpace(c) }

  predicate IsDigit(c: char) { '0' <= c <= '9' }

  predicate IsUpper(c: char) { 'A' <= c <= 'Z' }

  predicate IsLower(c: char) { 'a' <= c <= 'z' }

  predicate IsLetter(c: char) { IsUpper(c) || IsLower(c) }

  predicate IsAlnum(c: char) { IsLetter(c) || IsDigit(c) }

  /** The regex class `\w` (ASCII approximation). */
  predicate IsWordChar(c: char) { IsAlnum(c) || c == '_' }

  function LowerChar(c: char): (r: char)
    ensures IsUpper(c) ==> IsLower(r)
    ensures !IsUpper(c) ==> r == c
  {
    if IsUpper(c) then (c as int + 32) as char else c
  }

  function UpperChar(c: char): (r: char)
    ensures IsLower(c) ==> IsUpper(r)
    ensures !IsLower(c) ==> r == c
  {
    if IsLower(c) then (c as int - 32) as char else c
  }

  /** str.lower() */
  function Lower(s: string): (r: string)
    ensures |r| == |s|
    ensures forall i | 0 <= i < |s| :: r[i] == LowerChar(s[i])
  {
    seq(|s|, i requires 0 <= i < |s| => LowerChar(s[i]))
  }

  /** The character map of str.replace(a, b) for single characters a and b. */
  function ReplaceChar(s: string, a: char, b: char): (r: string)
    ensures |r| == |s|
    ensures forall i | 0 <= i < |s| :: r[i] == if s[i] == a then b else s[i]
  {
    seq(|s|, i requires 0 <= i < |s| => if s[i] == a then b else s[i])
  }

  /** str.isdigit() (ASCII digits only); false on the empty string. */
  predicate IsDigits(s: string) {
    |s| > 0 && forall i | 0 <= i < |s| :: IsDigit(s[i])
  }

  // ---------------------------------------------------------------------------
  // strip, lstrip, rstrip
  // ---------------------------------------------------------------------------

  /** Length of the longest prefix of `s` whose characters all satisfy `p`. */
  function LeadCount(s: string, p: char -> bool): (n: nat)
    ensures n <= |s|
    ensures n < |s| ==> !p(s[n])
  {
    if s == [] || !p(s[0]) then 0 else 1 + LeadCount(s[1..], p)
  }

  /** Every character of the leading run satisfies `p`. */
  lemma {:induction false} LeadCountRun(s: string, p: char -> bool)
    ensures forall i | 0 <= i < LeadCount(s, p) :: p(s[i])
  {
    if s != [] && p(s[0]) {
      LeadCountRun(s[1..], p);
      assert forall i | 1 <= i < LeadCount(s, p) :: s[i] == s[1..][i - 1];
    }
  }

  /** Length of the longest suffix of `s` whose characters all satisfy `p`. */
  function TrailCount(s: string, p: char -> bool): (n: nat)
    ensures n <= |s|
    ensures n < |s| ==> !p(s[|s| - 1 - n])
  {
    if s == [] || !p(s[|s| - 1]) then 0 else 1 + TrailCount(s[..|s| - 1], p)
  }

  /** Every character of the trailing run satisfies `p`. */
  lemma {:induction false} TrailCountRun(s: string, p: char -> bool)
    ensures forall i | |s| - TrailCount(s, p) <= i < |s| :: p(s[i])
  {
    if s != [] && p(s[|s| - 1]) {
      TrailCountRun(s[..|s| - 1], p);
    }
  }

  /** str.lstrip(chars) with the character set given as a predicate. */
  function LStripBy(s: string, p: char -> bool): (r: string)
    ensures r == s[LeadCount(s, p)..]
    ensures r == [] || !p(r[0])
  {
    s[LeadCount(s, p)..]
  }

  /** str.rstrip(chars) with the character set given as a predicate. */
  function RStripBy(s: string, p: char -> bool): (r: string)
    ensures r == s[..|s| - TrailCount(s, p)]
    ensures r == [] || !p(r[|r| - 1])
  {
    s[..|s| - TrailCount(s, p)]
  }

  /** No leading and no trailing white space. */
  predicate Stripped(s: string) {
    s == [] || (!IsSpace(s[0]) && !IsSpace(s[|s| - 1]))
  }

  /** str.strip() */
  function Strip(s: string): (r: string)
    ensures Stripped(r)
    ensures |r| <= |s|
  {
    var t := LStripBy(s, IsSpace);
    var r := RStripBy(t, IsSpace);
    assert r != [] ==> r[0] == t[0];
    r
  }

  /** The characters of `s` that satisfy `p`, in order. */
  function Filter(s: string, p: char -> bool): (r: string)
    ensures |r| <= |s|
    ensures forall i | 0 <= i < |r| :: p(r[i])
  {
    if s == [] then [] else (if p(s[0]) then [s[0]] else []) + Filter(s[1..], p)
  }

  lemma {:induction false} FilterAppend(a: string, b: string, p: char -> bool)
    ensures Filter(a + b, p) == Filter(a, p) + Filter(b, p)
  {
    if a == [] {
      assert a + b == b;
    } else {
      assert (a + b)[0] == a[0];
      assert (a + b)[1..] == a[1..] + b;
      FilterAppend(a[1..], b, p);
      var h := if p(a[0]) then [a[0]] else [];
      assert Filter(a + b, p) == h + Filter(a[1..] + b, p);
      assert Filter(a, p) == h + Filter(a[1..], p);
    }
  }

  lemma {:induction false} FilterCons(c: char, t: string, p: char -> bool)
    ensures Filter([c] + t, p) == (if p(c) then [c] else []) + Filter(t, p)
  {
    assert ([c] + t)[1..] == t;
  }

  lemma {:induction false} FilterNone(s: string, p: char -> bool)
    requires forall i | 0 <= i < |s| :: !p(s[i])
    ensures Filter(s, p) == []
  {
    if s != [] {
      FilterNone(s[1..], p);
    }
  }

  /** `s` with every white-space character removed. */
  function NoSpace(s: string): (r: string)
    ensures |r| <= |s|
    ensures forall i | 0 <= i < |r| :: !IsSpace(r[i])
  {
    Filter(s, NotSpace)
  }

  lemma {:induction false} NoSpaceAppend(a: string, b: string)
    ensures NoSpace(a + b) == NoSpace(a) + NoSpace(b)
  {
    FilterAppend(a, b, NotSpace);
  }

  lemma {:induction false} NoSpaceOfSpaces(s: string)
    requires forall i | 0 <= i < |s| :: IsSpace(s[i])
    ensures NoSpace(s) == []
  {
    FilterNone(s, NotSpace);
  }

  /** Removing a white-space prefix or suffix loses no other character. */
  lemma {:induction false} NoSpaceSplit(s: string, a: nat, b: nat)
    requires a <= b <= |s|
    requires forall i | 0 <= i < a :: IsSpace(s[i])
    requires forall i | b <= i < |s| :: IsSpace(s[i])
    ensures NoSpace(s[a..b]) == NoSpace(s)
  {
    var head, mid, tail := s[..a], s[a..b], s[b..];
    assert forall i | 0 <= i < |head| :: IsSpace(head[i]) by {
      forall i | 0 <= i < |head| ensures IsSpace(head[i]) {
        assert head[i] == s[i];
      }
    }
    assert forall i | 0 <= i < |tail| :: IsSpace(tail[i]) by {
      forall i | 0 <= i < |tail| ensures IsSpace(tail[i]) {
        assert tail[i] == s[b + i];
      }
    }
    NoSpaceOfSpaces(head);
    NoSpaceOfSpaces(tail);
    assert s == head + (mid + tail);
    NoSpaceAppend(head, mid + tail);
    NoSpaceAppend(mid, tail);
  }

  /** Stripping only ever removes white space: no other character is lost. */
  lemma {:induction false} StripKeepsText(s: string)
    ensures NoSpace(Strip(s)) == NoSpace(s)
  {
    var a, e := StripSlice(s);
    NoSpaceSplit(s, a, e);
  }

  /** strip() keeps the slice `s[a..e]` and drops white space on either side. */
  lemma {:induction false} StripSlice(s: string) returns (a: nat, e: nat)
    ensures a <= e <= |s| && Strip(s) == s[a..e]
    ensures forall i | 0 <= i < a :: IsSpace(s[i])
    ensures forall i | e <= i < |s| :: IsSpace(s[i])
  {
    a := LeadCount(s, IsSpace);
    var t := s[a..];
    var b := TrailCount(t, IsSpace);
    e := a + |t| - b;
    LeadCountRun(s, IsSpace);
    TrailCountRun(t, IsSpace);
    SuffixPrefix(s, a, |t| - b);
    forall i | e <= i < |s| ensures IsSpace(s[i]) {
      assert s[i] == t[i - a];
    }
  }

  /** A string without white space at its ends is left alone by strip. */
  lemma {:induction false} StripStripped(s: string)
    requires Stripped(s)
    ensures Strip(s) == s
  {
    if s != [] {
      assert LeadCount(s, IsSpace) == 0;
      assert TrailCount(s, IsSpace) == 0;
    }
  }

  /** strip() is idempotent. */
  lemma {:induction false} StripIdempotent(s: string)
    ensures Strip(Strip(s)) == Strip(s)
  {
    StripStripped(Strip(s));
  }

  // ---------------------------------------------------------------------------
  // Prefixes, suffixes, substrings
  // ---------------------------------------------------------------------------

  predicate StartsWith(s: string, prefix: string) {
    |prefix| <= |s| && s[..|prefix|] == prefix
  }

  predicate EndsWith(s: string, suffix: string) {
    |suffix| <= |s| && s[|s| - |suffix|..] == suffix
  }

  /** `pat` occurs in `s` starting at index `i`. */
  predicate OccursAt(s: string, pat: string, i: nat) {
    i + |pat| <= |s| && s[i..i + |pat|] == pat
  }

  /** Python's `pat in s`. */
  predicate Contains(s: string, pat: string) {
    exists i: nat | i <= |s| :: OccursAt(s, pat, i)
  }

  /** First index at or after `from` holding `c`. */
  function IndexOf(s: string, c: char, from: nat): (r: Option<nat>)
    decreases |s| - from
    ensures r.Some? ==> from <= r.value < |s| && s[r.value] == c
    ensures r.Some? ==> forall j | from <= j < r.value :: s[j] != c
    ensures r.None? ==> forall j | from <= j < |s| :: s[j] != c
  {
    if from >= |s| then None
    else if s[from] == c then Some(from)
    else IndexOf(s, c, from + 1)
  }

  // ---------------------------------------------------------------------------
  // str.replace
  // ---------------------------------------------------------------------------

  /** str.replace(pat, rep): leftmost, non-overlapping occurrences. */
  function ReplaceAll(s: string, pat: string, rep: string): string
    requires |pat| > 0
    decreases |s|
  {
    if |s| < |pat| then s
    else if s[..|pat|] == pat then rep + ReplaceAll(s[|pat|..], pat, rep)
    else [s[0]] + ReplaceAll(s[1..], pat, rep)
  }

  /** A string whose characters are drawn from `s` has no character of a
      class that `s` lacks. */
  lemma {:induction false} SubMultisetKeepsAbsent(r: string, s: string, p: char -> bool)
    requires multiset(r) <= multiset(s)
    requires forall i | 0 <= i < |s| :: !p(s[i])
    ensures forall i | 0 <= i < |r| :: !p(r[i])
  {
    forall i | 0 <= i < |r| ensures !p(r[i]) {
      assert r[i] in multiset(r);
      assert r[i] in s;
    }
  }

  /** A replacement never introduces a character of a class that neither the
      string nor the replacement text contains. */
  lemma {:induction false} ReplaceAllKeepsAbsent(s: string, pat: string, rep: string, p: char -> bool)
    requires |pat| > 0
    requires forall i | 0 <= i < |s| :: !p(s[i])
    requires forall i | 0 <= i < |rep| :: !p(rep[i])
    ensures forall i | 0 <= i < |ReplaceAll(s, pat, rep)| :: !p(ReplaceAll(s, pat, rep)[i])
    decreases |s|
  {
    if |s| >= |pat| {
      if s[..|pat|] == pat {
        ReplaceAllKeepsAbsent(s[|pat|..], pat, rep, p);
      } else {
        ReplaceAllKeepsAbsent(s[1..], pat, rep, p);
      }
    }
  }

  // ---------------------------------------------------------------------------
  // str.split() and ' '.join(...)
  // ---------------------------------------------------------------------------

  /** A word of str.split(): non-empty, no white space. */
  predicate IsWord(w: string) {
    |w| > 0 && forall i | 0 <= i < |w| :: !IsSpace(w[i])
  }

  /** str.split() with no argument: the maximal runs of non-space characters. */
  function Words(s: string): (r: seq<string>)
    decreases |s|
    ensures forall k | 0 <= k < |r| :: IsWord(r[k])
  {
    var t := LStripBy(s, IsSpace);
    if t == [] then []
    else
      var n := LeadCount(t, NotSpace);
      FirstWord(t);
      WordsCons(t[..n], Words(t[n..]));
      [t[..n]] + Words(t[n..])
  }

  /** The leading run of non-space characters of a text that starts with
      one is a word. */
  lemma {:induction false} FirstWord(t: string)
    requires t != [] && !IsSpace(t[0])
    ensures IsWord(t[..LeadCount(t, NotSpace)])
  {
    LeadCountRun(t, NotSpace);
    var w := t[..LeadCount(t, NotSpace)];
    forall i | 0 <= i < |w|
      ensures !IsSpace(w[i])
    {
      assert w[i] == t[i] && NotSpace(t[i]);
    }
  }

  lemma {:induction false} WordsCons(w: string, ws: seq<string>)
    requires IsWord(w) && forall k | 0 <= k < |ws| :: IsWord(ws[k])
    ensures forall k | 0 <= k < |[w] + ws| :: IsWord(([w] + ws)[k])
  {
    forall k | 0 <= k < |[w] + ws|
      ensures IsWord(([w] + ws)[k])
    {
      if k > 0 {
        assert ([w] + ws)[k] == ws[k - 1];
      }
    }
  }

  /** sep.join(parts) */
  function Join(parts: seq<string>, sep: string): (r: string)
    decreases |parts|
    ensures parts != [] ==> |r| >= |parts[0]|
  {
    if parts == [] then []
    else if |parts| == 1 then parts[0]
    else parts[0] + sep + Join(parts[1..], sep)
  }

  /** ''.join(parts) */
  function Concat(parts: seq<string>): string
    decreases |parts|
  {
    if parts == [] then [] else parts[0] + Concat(parts[1..])
  }

  /** Splitting words joined by single spaces gives the words back. */
  lemma {:induction false} WordsOfJoin(ws: seq<string>)
    requires forall k | 0 <= k < |ws| :: IsWord(ws[k])
    ensures Words(Join(ws, " ")) == ws
    decreases |ws|
  {
    if ws == [] {
    } else if |ws| == 1 {
      var w := ws[0];
      assert LeadCount(w, IsSpace) == 0;
      LeadAllNotSpace(w);
      assert LStripBy(w, IsSpace) == w;
      assert w[|w|..] == [] && w[..|w|] == w;
      assert Words([]) == [];
      assert Join(ws, " ") == w;
    } else {
      var w := ws[0];
      var rest := Join(ws[1..], " ");
      var s := w + " " + rest;
      assert Join(ws, " ") == s;
      assert LeadCount(s, IsSpace) == 0;
      LeadNotSpace(w, " " + rest);
      assert s == w + (" " + rest);
      assert s[..|w|] == w;
      assert s[|w|..] == " " + rest;
      WordsOfJoin(ws[1..]);
      WordsAfterSpace(rest);
    }
  }

  lemma {:induction false} LeadAllNotSpace(w: string)
    requires IsWord(w)
    ensures LeadCount(w, NotSpace) == |w|
  {
    if |w| > 1 {
      LeadAllNotSpace(w[1..]);
    }
  }

  lemma {:induction false} LeadNotSpace(w: string, t: string)
    requires IsWord(w)
    requires t != [] && IsSpace(t[0])
    ensures LeadCount(w + t, NotSpace) == |w|
  {
    if |w| > 1 {
      assert (w + t)[1..] == w[1..] + t;
      LeadNotSpace(w[1..], t);
    }
  }

  lemma {:induction false} WordsAfterSpace(rest: string)
    ensures Words(" " + rest) == Words(rest)
  {
    var s := " " + rest;
    assert LeadCount(s, IsSpace) == 1 + LeadCount(rest, IsSpace);
    assert LStripBy(s, IsSpace) == LStripBy(rest, IsSpace);
  }

  /** Joining one more part at the end. */
  lemma {:induction false} JoinSnoc(ws: seq<string>, w: string, sep: string)
    requires ws != []
    ensures Join(ws + [w], sep) == Join(ws, sep) + sep + w
    decreases |ws|
  {
    if |ws| > 1 {
      JoinSnoc(ws[1..], w, sep);
      assert (ws + [w])[1..] == ws[1..] + [w];
    }
  }

  /** How a trailing run of characters extends across a concatenation. */
  lemma {:induction false} TrailCountAppend(x: string, y: string, p: char -> bool)
    ensures TrailCount(y, p) < |y| ==> TrailCount(x + y, p) == TrailCount(y, p)
    ensures TrailCount(y, p) == |y| ==> TrailCount(x + y, p) == |y| + TrailCount(x, p)
    decreases |y|
  {
    if y == [] {
      assert x + y == x;
    } else {
      var xy := x + y;
      assert xy[|xy| - 1] == y[|y| - 1];
      if p(y[|y| - 1]) {
        assert xy[..|xy| - 1] == x + y[..|y| - 1];
        TrailCountAppend(x, y[..|y| - 1], p);
      }
    }
  }

  /** rstrip() of a concatenation: the left part is reached only when the right
      part strips away completely. */
  lemma {:induction false} RStripAppend(x: string, y: string, p: char -> bool)
    ensures RStripBy(y, p) != [] ==> RStripBy(x + y, p) == x + RStripBy(y, p)
    ensures RStripBy(y, p) == [] ==> RStripBy(x + y, p) == RStripBy(x, p)
  {
    TrailCountAppend(x, y, p);
    var xy := x + y;
    if RStripBy(y, p) != [] {
      assert xy[..|xy| - TrailCount(y, p)] == x + y[..|y| - TrailCount(y, p)];
    } else {
      assert xy[..|xy| - TrailCount(xy, p)] == x[..|x| - TrailCount(x, p)];
    }
  }

  // ---------------------------------------------------------------------------
  // str.title()
  // ---------------------------------------------------------------------------

  /** str.title() on the rest of a string, given whether the character before
      it was a letter: a letter is upper-cased when it starts a run of
      letters and lower-cased otherwise; every other character is kept. */
  function TitleFrom(s: string, afterLetter: bool): (r: string)
    ensures |r| == |s|
    decreases |s|
  {
    if s == [] then []
    else
      var c := s[0];
      var d := if !IsLetter(c) then c else if afterLetter then LowerChar(c) else UpperChar(c);
      [d] + TitleFrom(s[1..], IsLetter(c))
  }

  /** What title() does to each character: a non-letter is kept; a letter
      stays the same letter and is upper case exactly when the character
      before it is not a letter. */
  lemma {:induction false} TitleFromSpec(s: string, afterLetter: bool)
    ensures var r := TitleFrom(s, afterLetter);
            && (forall i | 0 <= i < |s| :: !IsLetter(s[i]) ==> r[i] == s[i])
            && (forall i | 0 <= i < |s| :: IsLetter(s[i]) ==> IsLetter(r[i]) && LowerChar(r[i]) == LowerChar(s[i]))
            && (forall i | 0 <= i < |s| :: IsLetter(s[i]) ==>
                  (IsUpper(r[i]) <==> if i == 0 then !afterLetter else !IsLetter(s[i - 1])))
    decreases |s|
  {
    if s != [] {
      TitleFromSpec(s[1..], IsLetter(s[0]));
      var r := TitleFrom(s, afterLetter);
      assert forall i | 1 <= i < |s| :: r[i] == TitleFrom(s[1..], IsLetter(s[0]))[i - 1] && s[i] == s[1..][i - 1];
    }
  }

  /** str.title() (ASCII letters). */
  function Title(s: string): string {
    TitleFrom(s, false)
  }

  /** Every letter is upper case exactly when it begins a run of letters. */
  predicate TitleCased(s: string) {
    forall i | 0 <= i < |s| :: IsLetter(s[i]) ==> (IsUpper(s[i]) <==> i == 0 || !IsLetter(s[i - 1]))
  }

  /** title() output is title-cased and has the same white space as its input. */
  lemma {:induction false} TitleShape(s: string)
    ensures TitleCased(Title(s))
    ensures |Title(s)| == |s|
    ensures forall i | 0 <= i < |s| :: IsSpace(Title(s)[i]) == IsSpace(s[i])
  {
    var r := Title(s);
    TitleFromSpec(s, false);
    forall i | 0 <= i < |s|
      ensures IsSpace(r[i]) == IsSpace(s[i])
    {
      if IsLetter(s[i]) {
        assert IsLetter(r[i]);
      }
    }
    forall i | 0 <= i < |r| && IsLetter(r[i])
      ensures IsUpper(r[i]) <==> i == 0 || !IsLetter(r[i - 1])
    {
      assert IsLetter(s[i]);
      if i > 0 {
        assert IsLetter(r[i - 1]) == IsLetter(s[i - 1]);
      }
    }
  }

  lemma {:induction false} TitleFromAppend(a: string, b: string, f: bool)
    ensures TitleFrom(a + b, f) == TitleFrom(a, f) + TitleFrom(b, if a == [] then f else IsLetter(a[|a| - 1]))
    decreases |a|
  {
    if a == [] {
      assert a + b == b;
    } else {
      assert (a + b)[1..] == a[1..] + b;
      TitleFromAppend(a[1..], b, IsLetter(a[0]));
    }
  }

  function TitleAll(ws: seq<string>): (r: seq<string>)
    ensures |r| == |ws|
    ensures forall k | 0 <= k < |ws| :: r[k] == Title(ws[k])
  {
    seq(|ws|, k requires 0 <= k < |ws| => Title(ws[k]))
  }

  /** title() restarts after a space. */
  lemma {:induction false} TitleAroundSpace(a: string, b: string)
    ensures Title(a + " " + b) == Title(a) + " " + Title(b)
  {
    assert a + " " + b == a + (" " + b);
    TitleFromAppend(a, " " + b, false);
    var f := if a == [] then false else IsLetter(a[|a| - 1]);
    TitleFromAppend(" ", b, f);
    assert TitleFrom(" ", f) == " ";
  }

  /** title() of words joined by single spaces title-cases each word. */
  lemma {:induction false} TitleJoin(ws: seq<string>)
    ensures Title(Join(ws, " ")) == Join(TitleAll(ws), " ")
    decreases |ws|
  {
    if |ws| > 1 {
      var rest := Join(ws[1..], " ");
      assert Join(ws, " ") == ws[0] + " " + rest;
      TitleAroundSpace(ws[0], rest);
      TitleJoin(ws[1..]);
      var tw := TitleAll(ws);
      assert tw[1..] == TitleAll(ws[1..]);
      assert Join(tw, " ") == tw[0] + " " + Join(tw[1..], " ");
    }
  }

  /** title() keeps a word a word. */
  lemma {:induction false} TitleWord(w: string)
    requires IsWord(w)
    ensures IsWord(Title(w))
  {
    TitleShape(w);
  }

  // ---------------------------------------------------------------------------
  // str.split(c)
  // ---------------------------------------------------------------------------

  /** str.split(c) for a single separator character: the pieces between the
      separators, empty pieces included. */
  function SplitOn(s: string, c: char): (r: seq<string>)
    decreases |s|
    ensures |r| >= 1
    ensures forall k, i | 0 <= k < |r| && 0 <= i < |r[k]| :: r[k][i] != c
  {
    match IndexOf(s, c, 0)
    case None => [s]
    case Some(i) => [s[..i]] + SplitOn(s[i + 1..], c)
  }

  /** Joining the pieces with the separator restores the string. */
  lemma {:induction false} JoinSplitOn(s: string, c: char)
    ensures Join(SplitOn(s, c), [c]) == s
    decreases |s|
  {
    match IndexOf(s, c, 0)
    case None =>
    case Some(i) =>
      JoinSplitOn(s[i + 1..], c);
      assert s == s[..i] + [c] + s[i + 1..];
  }

  // ---------------------------------------------------------------------------
  // Decimal numerals
  // ---------------------------------------------------------------------------

  /** int(s) for a string of ASCII digits. */
  function DigitsValue(s: string): nat
    requires forall i | 0 <= i < |s| :: IsDigit(s[i])
    decreases |s|
  {
    if s == [] then 0
    else
      assert IsDigit(s[|s| - 1]);
      10 * DigitsValue(s[..|s| - 1]) + (s[|s| - 1] as int - '0' as int)
  }

  /** str(n) for a natural number. */
  function NatToString(n: nat): (r: string)
    ensures IsDigits(r)
    decreases n
  {
    var d := [(n % 10 + '0' as int) as char];
    if n < 10 then d else NatToString(n / 10) + d
  }

  /** str(i) and f"{i}" for an integer. */
  function IntToString(i: int): (r: string)
    ensures r != []
  {
    if i < 0 then "-" + NatToString(-i) else NatToString(i)
  }

  /** Formatting then parsing a natural number gives it back. */
  lemma {:induction false} DigitsOfNat(n: nat)
    ensures DigitsValue(NatToString(n)) == n
    decreases n
  {
    var s := NatToString(n);
    if n >= 10 {
      DigitsOfNat(n / 10);
      assert s[..|s| - 1] == NatToString(n / 10);
    }
  }
}

/**
  String helpers of the syllabus extractor (extract_syllabus.py): clean_text,
  sanitize_course_name, and the heuristic that turns a course-objective
  sentence into a short unit title (extract_unit_name_from_objective).
*/
module SyllabusText {
  import opened Text

  // ---------------------------------------------------------------------------
  // clean_text
  // ---------------------------------------------------------------------------

  /** clean_text: newlines become spaces, then the text is stripped. Only white
      space is ever lost, and no newline survives. */
  function CleanText(text: string): (r: string)
    ensures Stripped(r)
    ensures forall i | 0 <= i < |r| :: r[i] != '\n'
    ensures NoSpace(r) == NoSpace(text)
  {
    if text == [] then []
    else
      var flat := ReplaceChar(text, '\n', ' ');
      StripIsSlice(flat);
      StripKeepsText(flat);
      NoSpaceReplaceNewline(text);
      Strip(flat)
  }

  lemma {:induction false} StripIsSlice(s: string)
    ensures var a := LeadCount(s, IsSpace);
            a + |Strip(s)| <= |s| && Strip(s) == s[a..a + |Strip(s)|]
  {
  }

  lemma {:induction false} NoSpaceReplaceNewline(s: string)
    ensures NoSpace(ReplaceChar(s, '\n', ' ')) == NoSpace(s)
  {
    if s != [] {
      NoSpaceReplaceNewline(s[1..]);
      assert ReplaceChar(s, '\n', ' ')[1..] == ReplaceChar(s[1..], '\n', ' ');
    }
  }

  /** clean_text is idempotent. */
  lemma {:induction false} CleanTextIdempotent(text: string)
    ensures CleanText(CleanText(text)) == CleanText(text)
  {
    var r := CleanText(text);
    if r != [] {
      assert ReplaceChar(r, '\n', ' ') == r;
      StripStripped(r);
    }
  }

  // ---------------------------------------------------------------------------
  // sanitize_course_name
  // ---------------------------------------------------------------------------

  /** s.rfind(c): the last index holding `c`, or -1. */
  function LastIndexOf(s: string, c: char): (r: int)
    ensures -1 <= r < |s|
    ensures r >= 0 ==> s[r] == c
    ensures forall j | r < j < |s| :: s[j] != c
  {
    if s == [] then -1
    else if s[|s| - 1] == c then |s| - 1
    else LastIndexOf(s[..|s| - 1], c)
  }

  /** os.path.splitext(p)[0] on a POSIX path: the extension starts at the last
      '.' of the last path component, unless that component holds nothing but
      dots before it (".bashrc" has no extension). */
  function SplitExtRoot(p: string): (r: string)
    ensures r == p || (exists dot | 0 <= dot < |p| :: p[dot] == '.' && r == p[..dot])
  {
    var sep := LastIndexOf(p, '/');
    var dot := LastIndexOf(p, '.');
    if dot > sep && (exists k | sep + 1 <= k < dot :: p[k] != '.') then p[..dot] else p
  }

  /** `d` is where splitext cuts `p`: the last '.', with no '/' after it,
      and a character other than '.' and '/' earlier in the same path
      component. */
  predicate ExtDot(p: string, d: int) {
    && 0 <= d < |p| && p[d] == '.'
    && (forall j | d < j < |p| :: p[j] != '.' && p[j] != '/')
    && (exists k | 0 <= k < d :: p[k] != '.' && p[k] != '/' && forall j | k < j < d :: p[j] != '/')
  }

  /** splitext cuts at the extension dot when there is one, and keeps the
      whole path otherwise. */
  lemma {:induction false} SplitExtRootSpec(p: string)
    ensures forall d | ExtDot(p, d) :: SplitExtRoot(p) == p[..d]
    ensures (forall d | 0 <= d < |p| :: !ExtDot(p, d)) ==> SplitExtRoot(p) == p
  {
    var sep := LastIndexOf(p, '/');
    var dot := LastIndexOf(p, '.');
    forall d | ExtDot(p, d)
      ensures SplitExtRoot(p) == p[..d]
    {
      var k :| 0 <= k < d && p[k] != '.' && p[k] != '/' && forall j | k < j < d :: p[j] != '/';
      assert dot == d;
      assert sep < k;
    }
    if dot > sep && (exists k | sep + 1 <= k < dot :: p[k] != '.') {
      var k :| sep + 1 <= k < dot && p[k] != '.';
      assert ExtDot(p, dot);
    }
  }

  /** A character that re.sub(r'[^\w\s-]', '', name) keeps. */
  predicate KeptInName(c: char) { IsWordChar(c) || IsSpace(c) || c == '-' }

  predicate DashOrSpace(c: char) { c == '-' || IsSpace(c) }

  /** re.sub(r'[^\w\s-]', '', name) */
  function DropSpecials(s: string): (r: string)
    ensures forall i | 0 <= i < |r| :: KeptInName(r[i])
    ensures r == Filter(s, KeptInName)
  {
    if s == [] then []
    else (if KeptInName(s[0]) then [s[0]] else []) + DropSpecials(s[1..])
  }

  /** re.sub(r'[-\s]+', '_', name): every run of dashes and white space
      becomes one underscore. */
  function DashesToUnderscore(s: string): string
    decreases |s|
  {
    if s == [] then []
    else if DashOrSpace(s[0]) then
      var n := LeadCount(s, DashOrSpace);
      "_" + DashesToUnderscore(s[n..])
    else [s[0]] + DashesToUnderscore(s[1..])
  }

  /** sanitize_course_name */
  function SanitizeCourseName(filename: string): string {
    DashesToUnderscore(DropSpecials(SplitExtRoot(filename)))
  }

  lemma {:induction false} DashesToUnderscoreWordChars(s: string)
    requires forall i | 0 <= i < |s| :: KeptInName(s[i])
    ensures forall i | 0 <= i < |DashesToUnderscore(s)| :: IsWordChar(DashesToUnderscore(s)[i])
    decreases |s|
  {
    if s != [] {
      if DashOrSpace(s[0]) {
        DashesToUnderscoreWordChars(s[LeadCount(s, DashOrSpace)..]);
      } else {
        DashesToUnderscoreWordChars(s[1..]);
      }
    }
  }

  /** The course name holds word characters only: no dot, dash, white space or
      other punctuation survives. */
  lemma {:induction false} SanitizedIsWordChars(filename: string)
    ensures forall i | 0 <= i < |SanitizeCourseName(filename)| :: IsWordChar(SanitizeCourseName(filename)[i])
  {
    DashesToUnderscoreWordChars(DropSpecials(SplitExtRoot(filename)));
  }

  lemma {:induction false} DropSpecialsKeeps(s: string)
    requires forall i | 0 <= i < |s| :: IsWordChar(s[i])
    ensures DropSpecials(s) == s
  {
    if s != [] {
      DropSpecialsKeeps(s[1..]);
    }
  }

  lemma {:induction false} DashesToUnderscoreKeeps(s: string)
    requires forall i | 0 <= i < |s| :: IsWordChar(s[i])
    ensures DashesToUnderscore(s) == s
  {
    if s != [] {
      DashesToUnderscoreKeeps(s[1..]);
    }
  }

  /** Sanitizing a sanitized name changes nothing. */
  lemma {:induction false} SanitizeIdempotent(filename: string)
    ensures SanitizeCourseName(SanitizeCourseName(filename)) == SanitizeCourseName(filename)
  {
    var r := SanitizeCourseName(filename);
    SanitizedIsWordChars(filename);
    assert LastIndexOf(r, '.') == -1;
    assert SplitExtRoot(r) == r;
    DropSpecialsKeeps(r);
    DashesToUnderscoreKeeps(r);
  }

  // ---------------------------------------------------------------------------
  // extract_unit_name_from_objective
  // ---------------------------------------------------------------------------

  const Placeholder := "Unit Content"

  /** The hand-written titles for known objectives, checked in order against
      the lower-cased objective. The third test reads `A or (B and C)`, as
      Python's `and` binds tighter than `or`. */
  function KnownTitle(lower: string): (r: Option<string>)
    ensures r.Some? ==> r.value in KnownTitles
  {
    if Contains(lower, "properties and classification of viruses") then
      Some("Virus Properties & Classification")
    else if Contains(lower, "pathogenic microorganisms of viruses") || Contains(lower, "mechanisms by which they cause") then
      Some("Viral Pathogenesis & Disease Mechanisms")
    else if Contains(lower, "reemerging viral infections") || (Contains(lower, "diagnostic skills") && Contains(lower, "viral")) then
      Some("Emerging & Reemerging Viral Infections")
    else if Contains(lower, "types of parasites") && Contains(lower, "intestine") then
      Some("Intestinal Parasitic Infections")
    else if Contains(lower, "diagnosis of parasitic") || Contains(lower, "skills in the diagnosis") then
      Some("Parasitic Diagnosis Techniques")
    else None
  }

  /** The five titles, in the order they are tested. */
  const TitleList: seq<string> := [
    "Virus Properties & Classification", "Viral Pathogenesis & Disease Mechanisms",
    "Emerging & Reemerging Viral Infections", "Intestinal Parasitic Infections",
    "Parasitic Diagnosis Techniques"
  ]

  /** The test that selects title `k`. */
  predicate TitleTest(lower: string, k: nat) {
    if k == 0 then Contains(lower, "properties and classification of viruses")
    else if k == 1 then Contains(lower, "pathogenic microorganisms of viruses") || Contains(lower, "mechanisms by which they cause")
    else if k == 2 then Contains(lower, "reemerging viral infections") || (Contains(lower, "diagnostic skills") && Contains(lower, "viral"))
    else if k == 3 then Contains(lower, "types of parasites") && Contains(lower, "intestine")
    else Contains(lower, "diagnosis of parasitic") || Contains(lower, "skills in the diagnosis")
  }

  /** The first passing test picks the title; no title when none passes. */
  lemma {:induction false} KnownTitleSpec(lower: string)
    ensures KnownTitle(lower).None? <==> forall k | 0 <= k < 5 :: !TitleTest(lower, k)
    ensures forall k | 0 <= k < 5 ::
              KnownTitle(lower) == Some(TitleList[k]) <==> TitleTest(lower, k) && forall j | 0 <= j < k :: !TitleTest(lower, j)
  {
    assert TitleTest(lower, 0) == Contains(lower, "properties and classification of viruses");
    assert TitleTest(lower, 1) == (Contains(lower, "pathogenic microorganisms of viruses") || Contains(lower, "mechanisms by which they cause"));
    assert TitleTest(lower, 2) == (Contains(lower, "reemerging viral infections") || (Contains(lower, "diagnostic skills") && Contains(lower, "viral")));
    assert TitleTest(lower, 3) == (Contains(lower, "types of parasites") && Contains(lower, "intestine"));
    assert TitleTest(lower, 4) == (Contains(lower, "diagnosis of parasitic") || Contains(lower, "skills in the diagnosis"));
    assert TitleList[0] != TitleList[1] && TitleList[0] != TitleList[2] && TitleList[0] != TitleList[3] && TitleList[0] != TitleList[4];
    assert TitleList[1] != TitleList[2] && TitleList[1] != TitleList[3] && TitleList[1] != TitleList[4];
    assert TitleList[2] != TitleList[3] && TitleList[2] != TitleList[4] && TitleList[3] != TitleList[4];
  }

  const KnownTitles: set<string> := {
    "Virus Properties & Classification", "Viral Pathogenesis & Disease Mechanisms",
    "Emerging & Reemerging Viral Infections", "Intestinal Parasitic Infections",
    "Parasitic Diagnosis Techniques"
  }

  /** Leading phrases removed from an objective, tried in this order. */
  const StarterPhrases: seq<string> := [
    "To gain knowledge on", "To gain knowledge about", "To gain knowledge",
    "To develop skills in", "To develop skills",
    "Gain knowledge on", "Gain knowledge about", "Gain knowledge",
    "Learn the", "Learn to", "Learn about", "Learn",
    "To understand the", "To understand", "Understand the", "Understand",
    "To acquire knowledge on", "To acquire knowledge", "Acquire knowledge",
    "To study the", "To study", "Study the", "Study",
    "Explain the", "Explain", "Discuss the", "Discuss",
    "Illustrate the", "Illustrate", "Demonstrate the", "Demonstrate",
    "Impart knowledge on", "Impart knowledge",
    "Practice the", "Practice", "Observe the", "Observe",
    "Learning objectives:", "Learning objective:",
    "The", "A", "An"
  ]

  /** Trailing words dropped from the short name. */
  const Stopwords: seq<string> := ["and", "or", "the", "of", "in", "on", "with", "to", "for", "by", "at"]

  /** Starter phrase `k` begins `text`, ignoring case. */
  predicate StartsWithStarter(text: string, k: nat)
    requires k < |StarterPhrases|
  {
    StartsWith(Lower(text), Lower(StarterPhrases[k]))
  }

  /** The first starter phrase at index `k` or later that begins `text`. */
  function FirstStarter(text: string, k: nat): (r: Option<nat>)
    requires k <= |StarterPhrases|
    ensures r.Some? ==> k <= r.value < |StarterPhrases| && StartsWithStarter(text, r.value)
    ensures r.None? ==> forall j | k <= j < |StarterPhrases| :: !StartsWithStarter(text, j)
    decreases |StarterPhrases| - k
  {
    if k == |StarterPhrases| then None
    else if StartsWithStarter(text, k) then Some(k)
    else FirstStarter(text, k + 1)
  }

  /** The characters of lstrip(',:- '). */
  predicate IsConnector(c: char) { c == ',' || c == ':' || c == '-' || c == ' ' }

  /** One removal: drop the phrase, strip, drop leading connectors, then a
      leading "on " or "about " with the white space after it. */
  function RemoveStarter(text: string, k: nat): (r: string)
    requires k < |StarterPhrases| && StartsWithStarter(text, k)
    ensures |r| < |text|
  {
    var phrase := StarterPhrases[k];
    assert |phrase| > 0;
    var t := LStripBy(Strip(text[|phrase|..]), IsConnector);
    if StartsWith(Lower(t), "on ") then Strip(t[3..])
    else if StartsWith(Lower(t), "about ") then Strip(t[6..])
    else t
  }

  /** The `while changed` loop: remove the first matching starter phrase until
      none matches. Each removal shortens the text, so the loop ends, and the
      result begins with no starter phrase. */
  function StripStarters(text: string): (r: string)
    ensures FirstStarter(r, 0).None?
    ensures |r| <= |text|
    decreases |text|
  {
    match FirstStarter(text, 0)
    case None => text
    case Some(k) => StripStarters(RemoveStarter(text, k))
  }

  predicate IsStopword(w: string) { w in Stopwords }

  /** The last word, lower-cased, is a stopword. */
  predicate LastIsStopword(ws: seq<string>) {
    ws != [] && IsStopword(Lower(ws[|ws| - 1]))
  }

  /** Drop the last word while it is a stopword. */
  function DropStopwords(ws: seq<string>): (r: seq<string>)
    ensures |r| <= |ws| && r == ws[..|r|]
    ensures !LastIsStopword(r)
    ensures forall k | |r| <= k < |ws| :: IsStopword(Lower(ws[k]))
  {
    if LastIsStopword(ws) then
      var r := DropStopwords(ws[..|ws| - 1]);
      assert forall k | |r| <= k < |ws| - 1 :: ws[..|ws| - 1][k] == ws[k];
      r
    else ws
  }

  /** The characters of rstrip(',.;:- '). */
  predicate IsTrailPunct(c: char) { c == ',' || c == '.' || c == ';' || c == ':' || c == '-' || c == ' ' }

  function Min(a: int, b: int): int { if a < b then a else b }

  /** The fallback branch: up to eight words of the objective after the
      starter phrases, trailing stopwords and punctuation removed, title-cased;
      the placeholder when fewer than five characters remain. */
  function FallbackName(objective: string): string {
    var ws := Words(StripStarters(Strip(objective)));
    var short := RStripBy(Join(DropStopwords(ws[..Min(8, |ws|)]), " "), IsTrailPunct);
    if |short| < 5 then Placeholder else Title(short)
  }

  /** extract_unit_name_from_objective */
  function UnitName(objective: string): string {
    if |Strip(objective)| < 5 then Placeholder
    else
      match KnownTitle(Lower(objective))
      case Some(t) => t
      case None => FallbackName(objective)
  }

  /** rstrip(',.;:- ') of words joined by spaces: trailing words made only of
      those characters disappear and the last remaining word loses its
      trailing ones. */
  function TrimTail(ws: seq<string>): (r: seq<string>)
    requires forall k | 0 <= k < |ws| :: IsWord(ws[k])
    ensures |r| <= |ws|
    ensures forall k | 0 <= k < |r| :: IsWord(r[k])
  {
    if ws == [] then []
    else
      var last := ws[|ws| - 1];
      var t := RStripBy(last, IsTrailPunct);
      if t == [] then TrimTail(ws[..|ws| - 1])
      else
        assert IsWord(last);
        assert forall i | 0 <= i < |t| :: t[i] == last[i];
        assert IsWord(t);
        ws[..|ws| - 1] + [t]
  }

  lemma {:induction false} RStripJoin(ws: seq<string>)
    requires forall k | 0 <= k < |ws| :: IsWord(ws[k])
    ensures RStripBy(Join(ws, " "), IsTrailPunct) == Join(TrimTail(ws), " ")
    decreases |ws|
  {
    if |ws| == 1 {
      if RStripBy(ws[0], IsTrailPunct) != [] {
        assert TrimTail(ws) == [RStripBy(ws[0], IsTrailPunct)];
      }
    } else if |ws| > 1 {
      var init := ws[..|ws| - 1];
      var last := ws[|ws| - 1];
      assert ws == init + [last];
      JoinSnoc(init, last, " ");
      var x := Join(init, " ");
      assert Join(ws, " ") == x + (" " + last);
      RStripAppend(x, " " + last, IsTrailPunct);
      RStripAppend(" ", last, IsTrailPunct);
      var t := RStripBy(last, IsTrailPunct);
      if t == [] {
        assert RStripBy(" ", IsTrailPunct) == [];
        RStripJoin(init);
      } else {
        JoinSnoc(init, t, " ");
      }
    }
  }

  /** What extract_unit_name_from_objective promises: the placeholder for an
      objective shorter than five characters once stripped; otherwise a known
      title, the placeholder, or a title-cased name of five or more characters
      and at most eight words. */
  lemma {:induction false} UnitNameShape(objective: string)
    ensures |Strip(objective)| < 5 ==> UnitName(objective) == Placeholder
    ensures var r := UnitName(objective);
            r == Placeholder || r in KnownTitles || (|r| >= 5 && |Words(r)| <= 8 && TitleCased(r))
  {
    var r := UnitName(objective);
    if r != Placeholder && r !in KnownTitles {
      var ws := Words(StripStarters(Strip(objective)));
      var d := DropStopwords(ws[..Min(8, |ws|)]);
      var short := RStripBy(Join(d, " "), IsTrailPunct);
      assert r == Title(short);
      RStripJoin(d);
      var e := TrimTail(d);
      TitleJoin(e);
      forall k | 0 <= k < |e| ensures IsWord(TitleAll(e)[k]) {
        TitleWord(e[k]);
      }
      WordsOfJoin(TitleAll(e));
      TitleShape(short);
    }
  }

  /** extract_unit_name_from_objective: the guard, the known titles, then the
      fallback built by the two loops below. */
  method ExtractUnitName(objective: string) returns (name: string)
    ensures name == UnitName(objective)
  {
    if |Strip(objective)| < 5 {
      return Placeholder;
    }
    var known := KnownTitle(Lower(objective));
    if known.Some? {
      return known.value;
    }
    var text := RemoveStarterPhrases(Strip(objective));
    var all := Words(text);
    var shortName := TrimStopwords(all[..Min(8, |all|)]);
    shortName := RStripBy(shortName, IsTrailPunct);
    if |shortName| < 5 {
      return Placeholder;
    }
    return Title(shortName);
  }

  /** The `while changed` loop: each pass removes the first starter phrase
      that matches, until none does. */
  method RemoveStarterPhrases(start: string) returns (text: string)
    ensures text == StripStarters(start)
  {
    text := start;
    var changed := true;
    while changed
      invariant changed ==> StripStarters(text) == StripStarters(start)
      invariant !changed ==> text == StripStarters(start)
      decreases if changed then |text| + 1 else 0
    {
      text, changed := RemoveFirstStarter(text);
    }
  }

  /** One pass of the `for phrase in starter_phrases` loop: the first phrase
      the text starts with (ignoring case) is removed, and the pass stops. */
  method RemoveFirstStarter(text: string) returns (text': string, changed: bool)
    ensures changed <==> FirstStarter(text, 0).Some?
    ensures changed ==> text' == RemoveStarter(text, FirstStarter(text, 0).value)
    ensures !changed ==> text' == text
  {
    text', changed := text, false;
    var i := 0;
    while i < |StarterPhrases|
      invariant 0 <= i <= |StarterPhrases|
      invariant FirstStarter(text, i) == FirstStarter(text, 0)
    {
      var phrase := StarterPhrases[i];
      if StartsWith(Lower(text), Lower(phrase)) {
        text' := Strip(text[|phrase|..]);
        text' := LStripBy(text', IsConnector);
        if StartsWith(Lower(text'), "on ") {
          text' := Strip(text'[3..]);
        } else if StartsWith(Lower(text'), "about ") {
          text' := Strip(text'[6..]);
        }
        changed := true;
        assert text' == RemoveStarter(text, i);
        return;
      }
      i := i + 1;
    }
  }

  /** The trailing-stopword loop over ' '.join(words): while the last word,
      lower-cased, is a stopword, the name is re-joined without it. */
  method TrimStopwords(words: seq<string>) returns (shortName: string)
    requires forall k | 0 <= k < |words| :: IsWord(words[k])
    ensures shortName == Join(DropStopwords(words), " ")
  {
    shortName := Join(words, " ");
    ghost var m: nat := |words|;
    assert words[..m] == words;
    JoinedWords(words, m);
    while shortName != [] && LastIsStopword(Words(shortName))
      invariant m <= |words| && shortName == Join(words[..m], " ") && Words(shortName) == words[..m]
      invariant shortName != [] <==> m > 0
      invariant DropStopwords(words[..m]) == DropStopwords(words)
      decreases m
    {
      var ws := Words(shortName);
      assert ws[..|ws| - 1] == words[..m - 1];
      shortName := Join(ws[..|ws| - 1], " ");
      m := m - 1;
      JoinedWords(words, m);
    }
  }

  lemma {:induction false} JoinedWords(words: seq<string>, m: nat)
    requires m <= |words|
    requires forall k | 0 <= k < |words| :: IsWord(words[k])
    ensures Words(Join(words[..m], " ")) == words[..m]
    ensures Join(words[..m], " ") != [] <==> m > 0
  {
    WordsOfJoin(words[..m]);
  }
}

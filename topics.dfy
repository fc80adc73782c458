/**
  The topic splitter of extract_syllabus.py: a unit's raw content is cut into
  topics at sentence ends and semicolons outside parentheses, and topics that
  read like "term - detail, term - detail, ..." lists are re-split on commas.
*/
module Topics {
  import opened Text

  // ---------------------------------------------------------------------------
  // Cutting the raw content
  // ---------------------------------------------------------------------------

  /** The parenthesis depth after reading `s`: opening minus closing
      parentheses. A stray ')' makes it negative. */
  function Depth(s: string): int
    decreases |s|
  {
    if s == [] then 0
    else
      var c := s[|s| - 1];
      Depth(s[..|s| - 1]) + (if c == '(' then 1 else if c == ')' then -1 else 0)
  }

  /** The character at `i` ends a topic: it is outside every parenthesis, and it
      is a ';', or a '.' that is the last character or is followed by a space,
      a newline or a tab. */
  predicate IsBoundary(raw: string, i: nat)
    requires i < |raw|
  {
    Depth(raw[..i]) == 0
    && (raw[i] == ';'
        || (raw[i] == '.' && (i + 1 == |raw| || raw[i + 1] == ' ' || raw[i + 1] == '\n' || raw[i + 1] == '\t')))
  }

  /** A chunk, stripped, is kept as a topic unless it is blank. */
  function Keep(chunk: string): (r: seq<string>)
    ensures r == [] || (|r| == 1 && r[0] != [] && Stripped(r[0]))
  {
    var t := Strip(chunk);
    if t == [] then [] else [t]
  }

  /** The topics of raw[start..]: the text is cut after each boundary
      character (which stays with the chunk before it), and every chunk is
      kept or dropped. The scan has reached `i`, and raw[start..i] holds no
      boundary. */
  function TopicsFrom(raw: string, start: nat, i: nat): seq<string>
    requires start <= i <= |raw|
    decreases |raw| - i
  {
    if i == |raw| then Keep(raw[start..])
    else if IsBoundary(raw, i) then Keep(raw[start..i + 1]) + TopicsFrom(raw, i + 1, i + 1)
    else TopicsFrom(raw, start, i + 1)
  }

  /** The topics of a unit's raw content. */
  function Segment(raw: string): seq<string> {
    TopicsFrom(raw, 0, 0)
  }

  /** Every element is a non-empty, stripped string. */
  predicate AllTopics(ts: seq<string>) {
    forall k | 0 <= k < |ts| :: ts[k] != [] && Stripped(ts[k])
  }

  lemma {:induction false} AllTopicsAppend(a: seq<string>, b: seq<string>)
    requires AllTopics(a) && AllTopics(b)
    ensures AllTopics(a + b)
  {
    forall k | 0 <= k < |a + b| ensures (a + b)[k] != [] && Stripped((a + b)[k]) {
      if k < |a| {
        assert (a + b)[k] == a[k];
      } else {
        assert (a + b)[k] == b[k - |a|];
      }
    }
  }

  /** Every topic is non-empty and stripped. */
  lemma {:induction false} TopicsShape(raw: string, start: nat, i: nat)
    requires start <= i <= |raw|
    ensures AllTopics(TopicsFrom(raw, start, i))
    decreases |raw| - i
  {
    if i == |raw| {
      assert TopicsFrom(raw, start, i) == Keep(raw[start..]);
    } else if IsBoundary(raw, i) {
      TopicsShape(raw, i + 1, i + 1);
      AllTopicsAppend(Keep(raw[start..i + 1]), TopicsFrom(raw, i + 1, i + 1));
    } else {
      TopicsShape(raw, start, i + 1);
    }
  }

  /** The segmenter's `while i < len(raw)` loop, tracking the parenthesis depth
      and the topic being built. */
  method SegmentTopics(raw: string) returns (topics: seq<string>)
    ensures topics == Segment(raw)
  {
    topics := [];
    var current := "";
    var depth := 0;
    ghost var start: nat := 0;
    var i := 0;
    while i < |raw|
      invariant start <= i <= |raw|
      invariant depth == Depth(raw[..i])
      invariant current == raw[start..i]
      invariant topics + TopicsFrom(raw, start, i) == Segment(raw)
    {
      ghost var before, chunk := topics, current;
      depth, current, topics := ReadChar(raw, i, depth, current, topics);
      start := SegmentStep(raw, start, i, before, chunk, topics, current);
      i := i + 1;
    }
    assert current == raw[start..];
    TopicsFromEnd(raw, start);
    topics := Close(topics, current);
  }

  /** The loop invariant of SegmentTopics survives one character: at a
      boundary the open chunk is closed and a new one starts after it. */
  lemma {:induction false} SegmentStep(raw: string, start: nat, i: nat, topics: seq<string>, current: string,
                                       topics': seq<string>, current': string) returns (start': nat)
    requires start <= i < |raw| && current == raw[start..i]
    requires topics + TopicsFrom(raw, start, i) == Segment(raw)
    requires if IsBoundary(raw, i) then current' == [] && topics' == topics + Keep(current + [raw[i]])
             else current' == current + [raw[i]] && topics' == topics
    ensures start' <= i + 1 && current' == raw[start'..i + 1]
    ensures topics' + TopicsFrom(raw, start', i + 1) == Segment(raw)
  {
    assert raw[start..i + 1] == current + [raw[i]];
    if IsBoundary(raw, i) {
      SegmentCut(raw, start, i, topics);
      start' := i + 1;
    } else {
      TopicsFromSkip(raw, start, i);
      start' := start;
    }
  }

  /** At a boundary, the closed chunk moves from the scan to the topics. */
  lemma {:induction false} SegmentCut(raw: string, start: nat, i: nat, topics: seq<string>)
    requires start <= i < |raw| && IsBoundary(raw, i)
    ensures topics + TopicsFrom(raw, start, i) == (topics + Keep(raw[start..i + 1])) + TopicsFrom(raw, i + 1, i + 1)
  {
    TopicsFromCut(raw, start, i);
    Reassociate(topics, Keep(raw[start..i + 1]), TopicsFrom(raw, i + 1, i + 1));
  }

  /** At the end of the text the open chunk is closed. */
  lemma {:induction false} TopicsFromEnd(raw: string, start: nat)
    requires start <= |raw|
    ensures TopicsFrom(raw, start, |raw|) == Keep(raw[start..])
  {
  }

  /** Closing a topic: it is kept, stripped, unless it is blank. */
  method Close(topics: seq<string>, current: string) returns (topics': seq<string>)
    ensures topics' == topics + Keep(current)
  {
    topics' := topics;
    var t := Strip(current);
    if t != [] {
      topics' := topics' + [t];
    }
  }

  /** One pass of the loop body: the character at `i` updates the depth and
      joins the current topic, which is closed (and kept when it is not
      blank) at a boundary. */
  method ReadChar(raw: string, i: nat, depth: int, current: string, topics: seq<string>)
    returns (depth': int, current': string, topics': seq<string>)
    requires i < |raw| && depth == Depth(raw[..i])
    ensures depth' == Depth(raw[..i + 1])
    ensures if IsBoundary(raw, i) then current' == [] && topics' == topics + Keep(current + [raw[i]])
            else current' == current + [raw[i]] && topics' == topics
  {
    DepthStep(raw, i);
    var c := raw[i];
    depth', current', topics' := depth, current, topics;
    if c == '(' {
      depth' := depth' + 1;
      current' := current' + [c];
    } else if c == ')' {
      depth' := depth' - 1;
      current' := current' + [c];
    } else if c == '.' && depth' == 0 {
      if i + 1 < |raw| && (raw[i + 1] == ' ' || raw[i + 1] == '\n' || raw[i + 1] == '\t') {
        current' := current' + [c];
        topics' := Close(topics', current');
        current' := "";
      } else if i + 1 >= |raw| {
        current' := current' + [c];
        topics' := Close(topics', current');
        current' := "";
      } else {
        current' := current' + [c];
      }
    } else if c == ';' && depth' == 0 {
      current' := current' + [c];
      topics' := Close(topics', current');
      current' := "";
    } else {
      current' := current' + [c];
    }
  }

  lemma {:induction false} DepthStep(raw: string, i: nat)
    requires i < |raw|
    ensures Depth(raw[..i + 1]) == Depth(raw[..i]) + (if raw[i] == '(' then 1 else if raw[i] == ')' then -1 else 0)
  {
    assert raw[..i + 1][..i] == raw[..i];
  }

  // ---------------------------------------------------------------------------
  // What the cut keeps
  // ---------------------------------------------------------------------------

  lemma {:induction false} ConcatAppend(a: seq<string>, b: seq<string>)
    ensures Concat(a + b) == Concat(a) + Concat(b)
    decreases |a|
  {
    if a == [] {
      assert a + b == b;
    } else {
      assert (a + b)[1..] == a[1..] + b;
      ConcatAppend(a[1..], b);
    }
  }

  /** Keeping or dropping a chunk loses only white space. */
  lemma {:induction false} KeepKeepsText(chunk: string)
    ensures NoSpace(Concat(Keep(chunk))) == NoSpace(chunk)
  {
    var t := Strip(chunk);
    StripKeepsText(chunk);
    if t != [] {
      assert Keep(chunk) == [t];
      assert [t][1..] == [];
      assert Concat([t]) == t + Concat([]);
      assert Concat([t]) == t;
    } else {
      assert Keep(chunk) == [];
      assert NoSpace(t) == [];
    }
  }

  lemma {:induction false} TopicsKeepText(raw: string, start: nat, i: nat)
    requires start <= i <= |raw|
    ensures NoSpace(Concat(TopicsFrom(raw, start, i))) == NoSpace(raw[start..])
    decreases |raw| - i
  {
    if i == |raw| {
      KeepKeepsText(raw[start..]);
    } else if IsBoundary(raw, i) {
      var chunk := raw[start..i + 1];
      var rest := TopicsFrom(raw, i + 1, i + 1);
      TopicsKeepText(raw, i + 1, i + 1);
      ConcatAppend(Keep(chunk), rest);
      NoSpaceAppend(Concat(Keep(chunk)), Concat(rest));
      KeepKeepsText(chunk);
      assert raw[start..] == chunk + raw[i + 1..];
      NoSpaceAppend(chunk, raw[i + 1..]);
    } else {
      TopicsKeepText(raw, start, i + 1);
    }
  }

  /** Nothing is lost: the topics, concatenated, hold every non-white-space
      character of the raw content, in order. */
  lemma {:induction false} SegmentKeepsText(raw: string)
    ensures NoSpace(Concat(Segment(raw))) == NoSpace(raw)
  {
    TopicsKeepText(raw, 0, 0);
    assert raw[0..] == raw;
  }

  /** Three sentences make three topics. */
  lemma {:induction false} ThreeSentences()
    ensures Segment("Introduction. Basics. Summary.") == ["Introduction.", "Basics.", "Summary."]
  {
    assert Letters("Introduction") && Letters("Basics") && Letters("Summary");
    Sentences("Introduction", "Basics", "Summary");
    ThreeLiterals();
  }

  lemma {:induction false} ThreeLiterals()
    ensures ("Introduction" + ".") + (" " + "Basics" + ".") + (" " + "Summary" + ".") == "Introduction. Basics. Summary."
    ensures ["Introduction" + ".", "Basics" + ".", "Summary" + "."] == ["Introduction.", "Basics.", "Summary."]
  {
    assert "Introduction" + "." == "Introduction.";
    assert " " + "Basics" + "." == " Basics.";
    assert " " + "Summary" + "." == " Summary.";
    assert "Basics" + "." == "Basics.";
    assert "Summary" + "." == "Summary.";
    assert "Introduction." + " Basics." == "Introduction. Basics.";
    assert "Introduction. Basics." + " Summary." == "Introduction. Basics. Summary.";
  }

  /** Three sentences of letters, each closed by a '.' and the later two
      opened by a space, are three topics. */
  lemma {:induction false} Sentences(a: string, b: string, c: string)
    requires Letters(a) && Letters(b) && Letters(c)
    ensures Segment((a + ".") + (" " + b + ".") + (" " + c + ".")) == [a + ".", b + ".", c + "."]
  {
    var s1, s2, s3 := a + ".", " " + b + ".", " " + c + ".";
    var raw := s1 + s2 + s3;
    var n2 := |a| + 1;
    var n3 := n2 + |" " + b| + 1;
    var n4 := |raw|;
    LettersKept(a);
    LettersKept(b);
    LettersKept(c);
    TwoSentences(a, b, s3, raw, n2, n3);
    SentenceAt(raw, s1 + s2, " " + c, [], n3, n4);
    TopicsAtEnd(raw);
    Three(Segment(raw), Keep(s1), Keep(s2), Keep(s3), TopicsFrom(raw, n4, n4), a + ".", b + ".", c + ".");
  }

  /** Two sentences at the start of the text, then a space or the end. */
  lemma {:induction false} TwoSentences(a: string, b: string, rest: string, raw: string, n2: nat, n3: nat)
    requires Letters(a) && Letters(b) && (rest == [] || rest[0] == ' ')
    requires raw == (a + ".") + (" " + b + ".") + rest
    requires n2 == |a| + 1 && n3 == n2 + |" " + b| + 1
    ensures TopicsFrom(raw, 0, 0) == Keep(a + ".") + (Keep(" " + b + ".") + TopicsFrom(raw, n3, n3))
    ensures Depth((a + ".") + (" " + b + ".")) == 0
  {
    var s1, s2 := a + ".", " " + b + ".";
    LettersKept(a);
    LettersKept(b);
    Regroup(s1, s2, rest);
    SentenceAt(raw, [], a, s2 + rest, 0, n2);
    SentenceAt(raw, s1, " " + b, rest, n2, n3);
  }

  lemma {:induction false} Regroup<T>(s1: seq<T>, s2: seq<T>, s3: seq<T>)
    ensures s1 + s2 + s3 == [] + s1 + (s2 + s3) && [] + s1 == s1
  {
  }

  /** Nothing is left once the scan has reached the end. */
  lemma {:induction false} TopicsAtEnd(raw: string)
    ensures TopicsFrom(raw, |raw|, |raw|) == []
  {
    assert raw[|raw|..] == [];
  }

  lemma {:induction false} Three<T>(t: seq<T>, k1: seq<T>, k2: seq<T>, k3: seq<T>, rest: seq<T>, x: T, y: T, z: T)
    requires t == k1 + (k2 + (k3 + rest))
    requires k1 == [x] && k2 == [y] && k3 == [z] && rest == []
    ensures t == [x, y, z]
  {
  }

  /** A sentence of letters, with or without a space in front, is kept whole. */
  lemma {:induction false} LettersKept(x: string)
    requires Letters(x)
    ensures Keep(x + ".") == [x + "."]
    ensures Keep(" " + x + ".") == [x + "."]
    ensures Plain(x) && Plain(" " + x)
  {
    assert " " + x + "." == " " + (x + ".");
    KeepStripped(x + ".");
    LettersPlain(x);
  }

  lemma {:induction false} LettersPlain(x: string)
    requires Letters(x)
    ensures Plain(x) && Plain(" " + x)
  {
    var s := " " + x;
    forall k | 0 <= k < |s|
      ensures IsLetter(s[k]) || s[k] == ' '
    {
      if k > 0 {
        assert s[k] == x[k - 1];
      }
    }
  }

  /** Letters and spaces only. */
  predicate Plain(x: string) {
    forall k | 0 <= k < |x| :: IsLetter(x[k]) || x[k] == ' '
  }

  predicate Letters(s: string) {
    s != [] && forall k | 0 <= k < |s| :: IsLetter(s[k])
  }

  /** A non-empty stripped chunk, with or without one space in front, is
      kept as it is. */
  lemma {:induction false} KeepStripped(x: string)
    requires x != [] && Stripped(x)
    ensures Keep(x) == [x]
    ensures Keep(" " + x) == [x]
  {
    StripStripped(x);
    var s := " " + x;
    assert s[1..] == x;
    assert LeadCount(x, IsSpace) == 0;
    assert LeadCount(s, IsSpace) == 1;
  }

  /** At a boundary the scan closes the chunk and starts a new one after it. */
  lemma {:induction false} TopicsFromCut(raw: string, start: nat, i: nat)
    requires start <= i < |raw| && IsBoundary(raw, i)
    ensures TopicsFrom(raw, start, i) == Keep(raw[start..i + 1]) + TopicsFrom(raw, i + 1, i + 1)
  {
  }

  /** Elsewhere the scan moves on within the chunk. */
  lemma {:induction false} TopicsFromSkip(raw: string, start: nat, i: nat)
    requires start <= i < |raw| && !IsBoundary(raw, i)
    ensures TopicsFrom(raw, start, i) == TopicsFrom(raw, start, i + 1)
  {
  }

  /** From depth 0, letters and spaces up to a '.' followed by a space (or
      the end) are one chunk: the scan closes it at the '.', still at depth 0.
      The chunk is raw[start..next]. */
  lemma {:induction false} Sentence(raw: string, start: nat, i: nat, next: nat, chunk: string)
    requires start <= i < next <= |raw| && Depth(raw[..i]) == 0
    requires forall k | i <= k < next - 1 :: IsLetter(raw[k]) || raw[k] == ' '
    requires raw[next - 1] == '.' && (next == |raw| || raw[next] == ' ')
    requires chunk == raw[start..next]
    ensures TopicsFrom(raw, start, i) == Keep(chunk) + TopicsFrom(raw, next, next)
    ensures Depth(raw[..next]) == 0
    decreases next - i
  {
    DepthStep(raw, i);
    if i < next - 1 {
      assert !IsBoundary(raw, i);
      TopicsFromSkip(raw, start, i);
      Sentence(raw, start, i + 1, next, chunk);
    } else {
      assert IsBoundary(raw, i);
      TopicsFromCut(raw, start, i);
    }
  }

  /** After a prefix at depth 0 (ending at `n`), words ended by a '.' that is
      followed by a space (or ends the text) make one chunk, and the scan goes
      on after it, at `m`. */
  lemma {:induction false} SentenceAt(raw: string, pre: string, x: string, post: string, n: nat, m: nat)
    requires raw == pre + (x + ".") + post && Depth(pre) == 0
    requires Plain(x)
    requires post == [] || post[0] == ' '
    requires n == |pre| && m == n + |x| + 1
    ensures TopicsFrom(raw, n, n) == Keep(x + ".") + TopicsFrom(raw, m, m)
    ensures Depth(pre + (x + ".")) == 0
  {
    SentenceLayout(raw, pre, x, post, n, m);
    Sentence(raw, n, n, m, x + ".");
  }

  /** Where the pieces of pre + (x + ".") + post sit inside the text. */
  lemma {:induction false} SentenceLayout(raw: string, pre: string, x: string, post: string, n: nat, m: nat)
    requires raw == pre + (x + ".") + post
    requires n == |pre| && m == n + |x| + 1
    ensures raw[..n] == pre && raw[..m] == pre + (x + ".")
    ensures raw[n..m] == x + "."
    ensures forall k | n <= k < m - 1 :: raw[k] == x[k - n]
    ensures raw[m - 1] == '.'
    ensures post != [] ==> raw[m] == post[0]
  {
    var q := pre + (x + ".");
    assert raw[..n] == q[..n];
    assert raw[..m] == q;
    assert raw[n..m] == q[n..];
    forall k | n <= k < m - 1 ensures raw[k] == x[k - n] {
      assert raw[k] == q[k];
    }
    assert raw[m - 1] == q[m - 1];
  }

  /** Without a boundary there is one topic: the stripped content (or none
      when it is blank). A '.' or ';' inside parentheses never cuts. */
  lemma {:induction false} SegmentWithoutBoundary(raw: string)
    requires forall i | 0 <= i < |raw| :: !IsBoundary(raw, i)
    ensures Segment(raw) == Keep(raw)
  {
    NoBoundaryOneChunk(raw, 0);
  }

  lemma {:induction false} NoBoundaryOneChunk(raw: string, i: nat)
    requires i <= |raw|
    requires forall j | i <= j < |raw| :: !IsBoundary(raw, j)
    ensures TopicsFrom(raw, 0, i) == Keep(raw)
    decreases |raw| - i
  {
    if i < |raw| {
      NoBoundaryOneChunk(raw, i + 1);
    } else {
      assert raw[0..] == raw;
    }
  }

  /** Stripping the pieces of a list and dropping the blank ones. */
  function Tidy(pieces: seq<string>): seq<string> {
    if pieces == [] then [] else Keep(pieces[0]) + Tidy(pieces[1..])
  }

  lemma {:induction false} TidyShape(pieces: seq<string>)
    ensures AllTopics(Tidy(pieces))
  {
    if pieces != [] {
      TidyShape(pieces[1..]);
      AllTopicsAppend(Keep(pieces[0]), Tidy(pieces[1..]));
    }
  }

  lemma {:induction false} TidyKeepsText(pieces: seq<string>)
    ensures NoSpace(Concat(Tidy(pieces))) == NoSpace(Concat(pieces))
    decreases |pieces|
  {
    if pieces != [] {
      var p, rest := pieces[0], pieces[1..];
      TidyKeepsText(rest);
      KeepKeepsText(p);
      assert Concat(pieces) == p + Concat(rest);
      NoSpaceAppend(p, Concat(rest));
      ConcatAppend(Keep(p), Tidy(rest));
      NoSpaceAppend(Concat(Keep(p)), Concat(Tidy(rest)));
    }
  }

  // ---------------------------------------------------------------------------
  // Re-splitting list-like topics
  // ---------------------------------------------------------------------------

  /** The dash of the list pattern: a hyphen or an en dash. */
  predicate IsDash(c: char) { c == '-' || c == '–' }

  predicate IsWordCharP(c: char) { IsWordChar(c) }

  /** The number of non-overlapping matches of `\w+\s*[–-]\s*[^,]+,` found
      left to right. A match starts at a run of word characters, which must be
      followed by optional white space, a dash, at least one character and
      then the next comma, where the match ends. When a run of word characters
      cannot start a match, no position inside it can either. */
  function DashCommaCount(s: string): nat
    decreases |s|
  {
    if s == [] then 0
    else if !IsWordChar(s[0]) then DashCommaCount(s[1..])
    else
      var n := LeadCount(s, IsWordCharP);
      var d := n + LeadCount(s[n..], IsSpace);
      if d < |s| && IsDash(s[d]) then
        match IndexOf(s, ',', d + 1)
        case Some(c) =>
          if c > d + 1 then 1 + DashCommaCount(s[c + 1..]) else DashCommaCount(s[n..])
        case None => DashCommaCount(s[n..])
      else DashCommaCount(s[n..])
  }

  /** A topic with three or more pattern matches becomes its stripped,
      non-empty comma-separated parts; any other topic is kept as it is. */
  function Expand(topic: string): (r: seq<string>)
  {
    if DashCommaCount(topic) >= 3 then Tidy(SplitOn(topic, ',')) else [topic]
  }

  function ExpandAll(topics: seq<string>): seq<string>
    decreases |topics|
  {
    if topics == [] then [] else Expand(topics[0]) + ExpandAll(topics[1..])
  }

  lemma {:induction false} ExpandAllAppend(xs: seq<string>, ys: seq<string>)
    ensures ExpandAll(xs + ys) == ExpandAll(xs) + ExpandAll(ys)
    decreases |xs|
  {
    if xs != [] {
      assert (xs + ys)[0] == xs[0];
      assert (xs + ys)[1..] == xs[1..] + ys;
      ExpandAllAppend(xs[1..], ys);
      assert ExpandAll(xs + ys) == Expand(xs[0]) + (ExpandAll(xs[1..]) + ExpandAll(ys));
    } else {
      assert xs + ys == ys;
    }
  }

  lemma {:induction false} TidyAppend(xs: seq<string>, ys: seq<string>)
    ensures Tidy(xs + ys) == Tidy(xs) + Tidy(ys)
    decreases |xs|
  {
    if xs != [] {
      assert (xs + ys)[0] == xs[0];
      assert (xs + ys)[1..] == xs[1..] + ys;
      TidyCons(xs + ys);
      TidyCons(xs);
      TidyAppend(xs[1..], ys);
      Reassociate(Keep(xs[0]), Tidy(xs[1..]), Tidy(ys));
    } else {
      assert xs + ys == ys;
    }
  }

  lemma {:induction false} TidyCons(pieces: seq<string>)
    requires pieces != []
    ensures Tidy(pieces) == Keep(pieces[0]) + Tidy(pieces[1..])
  {
  }

  lemma {:induction false} TidySnoc(parts: seq<string>, j: nat)
    requires j < |parts|
    ensures Tidy(parts[..j + 1]) == Tidy(parts[..j]) + Keep(parts[j])
  {
    assert parts[..j + 1] == parts[..j] + [parts[j]];
    TidyAppend(parts[..j], [parts[j]]);
    assert Tidy([parts[j]]) == Keep(parts[j]);
  }

  lemma {:induction false} ExpandAllSnoc(topics: seq<string>, k: nat)
    requires k < |topics|
    ensures ExpandAll(topics[..k + 1]) == ExpandAll(topics[..k]) + Expand(topics[k])
  {
    assert topics[..k + 1] == topics[..k] + [topics[k]];
    ExpandAllAppend(topics[..k], [topics[k]]);
    assert ExpandAll([topics[k]]) == Expand(topics[k]) + ExpandAll([]);
  }

  /** The post-processing loop over the topics. */
  method FlattenLists(topics: seq<string>) returns (finalTopics: seq<string>)
    ensures finalTopics == ExpandAll(topics)
  {
    finalTopics := [];
    var k := 0;
    while k < |topics|
      invariant k <= |topics|
      invariant finalTopics == ExpandAll(topics[..k])
    {
      var topic := topics[k];
      ExpandAllSnoc(topics, k);
      if DashCommaCount(topic) >= 3 {
        finalTopics := AppendParts(finalTopics, SplitOn(topic, ','));
      } else {
        finalTopics := finalTopics + [topic];
      }
      k := k + 1;
    }
    assert topics[..k] == topics;
  }

  /** The inner loop over the comma-separated parts of a list-like topic:
      each part that is not blank is appended, stripped. */
  method AppendParts(finalTopics: seq<string>, parts: seq<string>) returns (r: seq<string>)
    ensures r == finalTopics + Tidy(parts)
  {
    r := finalTopics;
    var j := 0;
    while j < |parts|
      invariant j <= |parts|
      invariant r == finalTopics + Tidy(parts[..j])
    {
      var part := parts[j];
      TidySnoc(parts, j);
      r := Close(r, part);
      j := j + 1;
    }
    assert parts[..j] == parts;
  }

  /** Expanding keeps every topic non-empty and stripped. */
  lemma {:induction false} ExpandAllShape(topics: seq<string>)
    requires AllTopics(topics)
    ensures AllTopics(ExpandAll(topics))
    decreases |topics|
  {
    if topics != [] {
      ExpandAllShape(topics[1..]);
      TidyShape(SplitOn(topics[0], ','));
      AllTopicsAppend(Expand(topics[0]), ExpandAll(topics[1..]));
    }
  }

  /** A re-split topic keeps all its text but the commas and white space:
      its parts hold, in order, the non-white-space characters of the pieces
      between the commas (and those pieces, joined with commas, are the
      topic). */
  lemma {:induction false} ExpandKeepsText(topic: string)
    requires DashCommaCount(topic) >= 3
    ensures NoSpace(Concat(Expand(topic))) == NoSpace(Concat(SplitOn(topic, ',')))
    ensures Join(SplitOn(topic, ','), ",") == topic
  {
    TidyKeepsText(SplitOn(topic, ','));
    JoinSplitOn(topic, ',');
  }

  /** A topic below three matches is never split. */
  lemma {:induction false} ExpandKeeps(topic: string)
    requires DashCommaCount(topic) < 3
    ensures ExpandAll([topic]) == [topic]
  {
    assert ExpandAll([topic]) == Expand(topic) + ExpandAll([]);
  }
}

/**
  The generation loop of app.py: for every unit of every subject of every
  class in the syllabus files, each topic is sent to the language model, the
  answer is parsed (directly, or after try_clean_and_parse), the outcome is
  saved to its own file, and the topic's notes, formulas and real-world
  sections are collected into the course map in unit and topic order.

  The language model, json.loads and Python's repr are the oracles of
  `Oracles`. An exception that escapes build_course_data ends the run; the
  model returns None for it.
*/
module Generation {
  import opened Text
  import opened JsonValue
  import opened Cleaning

  /** The collaborators the loop calls out to: the language model
      (call_ollama on the prompts built from class, subject, chapter and
      topic), json.loads, and repr for the values an f-string shows that
      way. */
  datatype Oracles = Oracles(
    llm: (string, string, Json, Json) -> string,
    parse: string -> ParseResult,
    show: Json -> string)

  // ---------------------------------------------------------------------------
  // generate_topic_content
  // ---------------------------------------------------------------------------

  /** (parsed_json_or_empty_dict, is_error_flag, raw_text) */
  datatype Generated = Generated(content: Json, isError: bool, raw: string)

  /** generate_topic_content: the model's answer and its direct parse; `{}`
      with the error flag when json.loads rejects it. */
  function GenerateTopicContent(readable: string, subject: string, chapterName: Json, topic: Json, o: Oracles): (g: Generated)
    ensures g.raw == o.llm(readable, subject, chapterName, topic)
    ensures g.isError <==> o.parse(g.raw).Failed?
    ensures g.isError ==> g.content == EmptyObject
    ensures !g.isError ==> o.parse(g.raw) == Parsed(g.content)
  {
    var raw := o.llm(readable, subject, chapterName, topic);
    match o.parse(raw)
    case Parsed(v) => Generated(v, false, raw)
    case Failed(_) => Generated(EmptyObject, true, raw)
  }

  // ---------------------------------------------------------------------------
  // The outcome of _process_topic_seq
  // ---------------------------------------------------------------------------

  /** final_topic_json, raw_to_save and final_is_error. */
  datatype Outcome = Outcome(final: Json, rawToSave: string, isError: bool)

  /** The error record {"raw_output": raw_text}. */
  function ErrorRecord(raw: string): Json {
    JObject([Field("raw_output", JString(raw))])
  }

  /** The direct parse gave a truthy value. */
  predicate DirectHit(g: Generated) {
    !g.isError && Truthy(g.content)
  }

  /** try_clean_and_parse gave a truthy value. */
  predicate CleanerHit(raw: string, parse: string -> ParseResult) {
    var c := TryCleanAndParse(raw, parse);
    c.data.Some? && Truthy(c.data.value)
  }

  /** The three cases of _process_topic_seq: a truthy direct parse is kept
      with the raw answer; else a truthy cleaned parse is kept with the
      cleaned text; else the error record is kept with the raw answer. */
  function ChooseOutcome(g: Generated, parse: string -> ParseResult): (r: Outcome)
    ensures DirectHit(g) ==> r == Outcome(g.content, g.raw, false)
    ensures r.isError <==> !DirectHit(g) && !CleanerHit(g.raw, parse)
    ensures r.isError ==> r == Outcome(ErrorRecord(g.raw), g.raw, true)
    ensures !r.isError ==> Truthy(r.final)
    ensures !r.isError && !DirectHit(g) ==>
              && r.rawToSave == PreprocessJson(StripMarkdownFences(g.raw))
              && parse(r.rawToSave).Parsed?
              && r.final == CleanJson(parse(r.rawToSave).value)
  {
    if DirectHit(g) then Outcome(g.content, g.raw, false)
    else
      var c := TryCleanAndParse(g.raw, parse);
      if c.data.Some? && Truthy(c.data.value) then Outcome(c.data.value, c.text, false)
      else Outcome(ErrorRecord(g.raw), g.raw, true)
  }

  // ---------------------------------------------------------------------------
  // save_topic_json
  // ---------------------------------------------------------------------------

  const TopicOutputDir: string := "generated_content"
  const ErrorOutputDir: string := "generation_errors"

  /** What is written: the text as it is, or json.dump of the value. */
  datatype Body = RawText(text: string) | Dumped(value: Json)

  /** One file write: the path, component by component, and the body. */
  datatype SaveRequest = SaveRequest(path: seq<string>, body: Body)

  /** topic.replace("/", "_").replace("\\", "_") */
  function SafeName(topic: string): (r: string)
    ensures |r| == |topic|
    ensures forall i | 0 <= i < |r| :: r[i] != '/' && r[i] != '\\'
    ensures forall i | 0 <= i < |r| :: r[i] == if topic[i] == '/' || topic[i] == '\\' then '_' else topic[i]
  {
    ReplaceChar(ReplaceChar(topic, '/', '_'), '\\', '_')
  }

  /** A topic name without separators is used as it is. */
  lemma {:induction false} SafeNameKeeps(topic: string)
    requires forall i | 0 <= i < |topic| :: topic[i] != '/' && topic[i] != '\\'
    ensures SafeName(topic) == topic
  {
  }

  /** save_topic_json: the file a topic goes to and what is written there.
      Path division by a chapter name that is not a string, or replace on a
      topic that is not one, raises; _process_topic_seq catches that and
      nothing is written (None). */
  function SaveTopicJson(readable: string, subject: string, chapterName: Json, topic: Json,
                         parsed: Json, cleanedRaw: string, isError: bool): (r: Option<SaveRequest>)
    ensures r.Some? <==> chapterName.JString? && topic.JString?
    ensures r.Some? ==> |r.value.path| == 5 && r.value.path[1..4] == [readable, subject, chapterName.s]
    ensures r.Some? ==> (r.value.path[0] == ErrorOutputDir <==> isError)
    ensures r.Some? ==> r.value.path[4] == SafeName(topic.s) + (if isError then "_ERROR.json" else ".json")
    ensures r.Some? ==> (r.value.body == RawText(cleanedRaw) <==> isError || !Truthy(parsed))
    ensures r.Some? && r.value.body != RawText(cleanedRaw) ==> r.value.body == Dumped(parsed)
  {
    if !chapterName.JString? || !topic.JString? then None
    else
      var dir := if isError then ErrorOutputDir else TopicOutputDir;
      var filename := SafeName(topic.s) + (if isError then "_ERROR.json" else ".json");
      var body := if isError || !Truthy(parsed) then RawText(cleanedRaw) else Dumped(parsed);
      Some(SaveRequest([dir, readable, subject, chapterName.s, filename], body))
  }

  // ---------------------------------------------------------------------------
  // _process_topic_seq
  // ---------------------------------------------------------------------------

  /** {"name": topic, "notes": ..., "formulas": ..., "realworld": ...} */
  datatype TopicEntry = TopicEntry(name: Json, notes: Json, formulas: Json, realworld: Json)

  /** The write save_topic_json makes (if any), the record returned (None
      when `.get` on a value that is not a dict raises), and the outcome. */
  datatype TopicRun = TopicRun(save: Option<SaveRequest>, entry: Option<TopicEntry>, outcome: Outcome)

  /** _process_topic_seq for one topic. */
  function ProcessTopic(readable: string, subject: string, chapterName: Json, topic: Json, o: Oracles): (r: TopicRun)
    ensures r.outcome == ChooseOutcome(GenerateTopicContent(readable, subject, chapterName, topic, o), o.parse)
    ensures r.save == SaveTopicJson(readable, subject, chapterName, topic,
                                    r.outcome.final, r.outcome.rawToSave, r.outcome.isError)
    ensures r.entry.Some? <==> r.outcome.final.JObject?
    ensures r.entry.Some? ==> r.entry.value.name == topic
  {
    var g := GenerateTopicContent(readable, subject, chapterName, topic, o);
    var out := ChooseOutcome(g, o.parse);
    var save := SaveTopicJson(readable, subject, chapterName, topic, out.final, out.rawToSave, out.isError);
    match out.final
    case JObject(fields) =>
      TopicRun(save, Some(TopicEntry(topic, Get(fields, "notes", EmptyArray),
                                     Get(fields, "formulas", EmptyArray),
                                     Get(fields, "realworld", EmptyArray))), out)
    case _ => TopicRun(save, None, out)
  }

  /** On the error path the original answer is what gets written, to the
      error directory, and the record has empty lists. */
  lemma {:induction false} ErrorTopic(readable: string, subject: string, chapterName: Json, topic: Json, o: Oracles)
    requires ProcessTopic(readable, subject, chapterName, topic, o).outcome.isError
    ensures var r := ProcessTopic(readable, subject, chapterName, topic, o);
            && r.entry == Some(TopicEntry(topic, EmptyArray, EmptyArray, EmptyArray))
            && (r.save.Some? ==>
                  r.save.value.body == RawText(o.llm(readable, subject, chapterName, topic))
                  && r.save.value.path[0] == ErrorOutputDir)
  {
    var r := ProcessTopic(readable, subject, chapterName, topic, o);
    var fields := r.outcome.final.fields;
    assert fields == [Field("raw_output", JString(r.outcome.rawToSave))];
    assert fields[0].key != "notes" && fields[0].key != "formulas" && fields[0].key != "realworld";
  }

  /** A record is missing only when a truthy answer that is not a dict was
      accepted: a list, a string, a number or true. */
  lemma {:induction false} MissingEntry(readable: string, subject: string, chapterName: Json, topic: Json, o: Oracles)
    requires ProcessTopic(readable, subject, chapterName, topic, o).entry.None?
    ensures var out := ProcessTopic(readable, subject, chapterName, topic, o).outcome;
            !out.isError && Truthy(out.final) && !out.final.JObject?
  {
  }

  // ---------------------------------------------------------------------------
  // build_course_data
  // ---------------------------------------------------------------------------

  /** A chapter entry: "id", "class", "chapterName", "title", "topics". */
  datatype Chapter = Chapter(id: Json, className: string, chapterName: Json, title: string, topics: seq<TopicEntry>)

  /** course_map: class key, then subject key, then the chapters in order.
      Python keeps keys in insertion order; a map does not. */
  type CourseMap = map<string, map<string, seq<Chapter>>>

  /** `xs` in front of a list that may be missing. */
  function Prepend<T>(xs: seq<T>, r: Option<seq<T>>): Option<seq<T>> {
    if r.None? then None else Some(xs + r.value)
  }

  lemma {:induction false} PrependNil<T>(r: Option<seq<T>>)
    ensures Prepend([], r) == r
  {
    if r.Some? {
      assert [] + r.value == r.value;
    }
  }

  lemma {:induction false} PrependSnoc<T>(xs: seq<T>, x: T, r: Option<seq<T>>)
    ensures Prepend(xs, Prepend([x], r)) == Prepend(xs + [x], r)
  {
    if r.Some? {
      assert xs + ([x] + r.value) == (xs + [x]) + r.value;
    }
  }

  /** The records of the topics of one chapter, in topic order; None when
      one of them raises. */
  function TopicEntries(readable: string, subject: string, chapterName: Json, topics: seq<Json>, o: Oracles): (r: Option<seq<TopicEntry>>)
    ensures r.Some? ==> |r.value| == |topics|
    ensures r.Some? ==> forall k | 0 <= k < |topics| :: r.value[k].name == topics[k]
    ensures r.None? ==> exists k | 0 <= k < |topics| :: ProcessTopic(readable, subject, chapterName, topics[k], o).entry.None?
    decreases |topics|
  {
    if topics == [] then Some([])
    else
      match ProcessTopic(readable, subject, chapterName, topics[0], o).entry
      case None => None
      case Some(e) =>
        var rest := TopicEntries(readable, subject, chapterName, topics[1..], o);
        assert rest.Some? ==> forall k | 1 <= k < |topics| :: topics[k] == topics[1..][k - 1];
        Prepend([e], rest)
  }

  /** The topics loop of one chapter: the records appended to
      chapter_entry["topics"] one by one. */
  method ProcessTopics(readable: string, subject: string, chapterName: Json, topics: seq<Json>, o: Oracles)
    returns (r: Option<seq<TopicEntry>>)
    ensures r == TopicEntries(readable, subject, chapterName, topics, o)
  {
    var entries: seq<TopicEntry> := [];
    var k := 0;
    PrependNil(TopicEntries(readable, subject, chapterName, topics, o));
    while k < |topics|
      invariant 0 <= k <= |topics|
      invariant TopicEntries(readable, subject, chapterName, topics, o)
             == Prepend(entries, TopicEntries(readable, subject, chapterName, topics[k..], o))
    {
      var run := ProcessTopic(readable, subject, chapterName, topics[k], o);
      TopicsLoopStep(readable, subject, chapterName, topics, o, k, entries);
      if run.entry.None? {
        return None;
      }
      entries := entries + [run.entry.value];
      k := k + 1;
    }
    assert topics[k..] == [];
    assert entries + [] == entries;
    r := Some(entries);
  }

  /** One pass of the topics loop: after the records `done` of the topics
      before `k`, topic `k` either raises, and then there are no records, or
      adds its record. */
  lemma {:induction false} TopicsLoopStep(readable: string, subject: string, chapterName: Json, topics: seq<Json>, o: Oracles,
                                          k: nat, done: seq<TopicEntry>)
    requires k < |topics|
    requires TopicEntries(readable, subject, chapterName, topics, o)
          == Prepend(done, TopicEntries(readable, subject, chapterName, topics[k..], o))
    ensures var e := ProcessTopic(readable, subject, chapterName, topics[k], o).entry;
            && (e.None? ==> TopicEntries(readable, subject, chapterName, topics, o).None?)
            && (e.Some? ==> TopicEntries(readable, subject, chapterName, topics, o)
                            == Prepend(done + [e.value], TopicEntries(readable, subject, chapterName, topics[k + 1..], o)))
  {
    assert topics[k..][1..] == topics[k + 1..];
    assert topics[k..][0] == topics[k];
    var e := ProcessTopic(readable, subject, chapterName, topics[k], o).entry;
    if e.Some? {
      PrependSnoc(done, e.value, TopicEntries(readable, subject, chapterName, topics[k + 1..], o));
    }
  }

  /** One unit: its number and name (chapter["Unit_Number"] and
      chapter["Unit_Name"], which raise on a missing key or a unit that is
      not a dict), the title, and the records of its topics. */
  function UnitChapter(readable: string, subject: string, unit: Json, o: Oracles): (c: Option<Chapter>)
    ensures c.Some? ==> unit.JObject? && HasKey(unit.fields, "Unit_Number") && HasKey(unit.fields, "Unit_Name")
    ensures c.Some? ==>
              var id, name := Get(unit.fields, "Unit_Number", JNull), Get(unit.fields, "Unit_Name", JNull);
              && c.value.id == id && c.value.chapterName == name && c.value.className == readable
              && c.value.title == "Unit " + Format(id, o.show) + ": " + Format(name, o.show)
    ensures c.Some? ==>
              var topics := Iterate(Get(unit.fields, "Topics", EmptyArray));
              && topics.Some? && |c.value.topics| == |topics.value|
              && forall k | 0 <= k < |topics.value| :: c.value.topics[k].name == topics.value[k]
  {
    if !unit.JObject? || !HasKey(unit.fields, "Unit_Number") || !HasKey(unit.fields, "Unit_Name") then None
    else
      var id := Get(unit.fields, "Unit_Number", JNull);
      var name := Get(unit.fields, "Unit_Name", JNull);
      match Iterate(Get(unit.fields, "Topics", EmptyArray))
      case None => None
      case Some(topics) =>
        match TopicEntries(readable, subject, name, topics, o)
        case None => None
        case Some(entries) =>
          Some(Chapter(id, readable, name, "Unit " + Format(id, o.show) + ": " + Format(name, o.show), entries))
  }

  /** One unit of the units loop. */
  method ProcessUnit(readable: string, subject: string, unit: Json, o: Oracles) returns (c: Option<Chapter>)
    ensures c == UnitChapter(readable, subject, unit, o)
  {
    if !unit.JObject? || !HasKey(unit.fields, "Unit_Number") || !HasKey(unit.fields, "Unit_Name") {
      return None;
    }
    var id := Get(unit.fields, "Unit_Number", JNull);
    var name := Get(unit.fields, "Unit_Name", JNull);
    var topics := Iterate(Get(unit.fields, "Topics", EmptyArray));
    if topics.None? {
      return None;
    }
    var entries := ProcessTopics(readable, subject, name, topics.value, o);
    if entries.None? {
      return None;
    }
    c := Some(Chapter(id, readable, name, "Unit " + Format(id, o.show) + ": " + Format(name, o.show), entries.value));
  }

  /** `f` applied to each of `xs` in order, as a `for` loop whose body may
      raise: None as soon as one application gives None. */
  function MapOrRaise<A, B>(f: A -> Option<B>, xs: seq<A>): Option<seq<B>>
    decreases |xs|
  {
    if xs == [] then Some([])
    else
      match f(xs[0])
      case None => None
      case Some(y) => Prepend([y], MapOrRaise(f, xs[1..]))
  }

  /** Without a raise there is one result per element, in order. */
  lemma {:induction false} MapOrRaiseSome<A, B>(f: A -> Option<B>, xs: seq<A>)
    requires MapOrRaise(f, xs).Some?
    ensures var ys := MapOrRaise(f, xs).value;
            && |ys| == |xs|
            && forall k | 0 <= k < |xs| :: f(xs[k]) == Some(ys[k])
    decreases |xs|
  {
    if xs != [] {
      MapOrRaiseSome(f, xs[1..]);
      var ys := [f(xs[0]).value] + MapOrRaise(f, xs[1..]).value;
      assert MapOrRaise(f, xs).value == ys;
      forall k | 0 <= k < |xs| ensures f(xs[k]) == Some(ys[k]) {
        if k > 0 {
          assert xs[k] == xs[1..][k - 1];
        }
      }
    }
  }

  /** There is no result only when some element raises. */
  lemma {:induction false} MapOrRaiseNone<A, B>(f: A -> Option<B>, xs: seq<A>)
    requires MapOrRaise(f, xs).None?
    ensures exists k | 0 <= k < |xs| :: f(xs[k]).None?
    decreases |xs|
  {
    if f(xs[0]).Some? {
      MapOrRaiseNone(f, xs[1..]);
      var k :| 0 <= k < |xs| - 1 && f(xs[1..][k]).None?;
      assert xs[1..][k] == xs[k + 1];
    }
  }

  /** The units loop body as a function of the unit. */
  function UnitChapterOf(readable: string, subject: string, o: Oracles): Json -> Option<Chapter> {
    u => UnitChapter(readable, subject, u, o)
  }

  /** The chapters of a list of units, in unit order; None when a unit
      raises. */
  function Chapters(readable: string, subject: string, units: seq<Json>, o: Oracles): Option<seq<Chapter>> {
    MapOrRaise(UnitChapterOf(readable, subject, o), units)
  }

  /** One unit of the loop: its chapter comes first, or nothing comes. */
  lemma {:induction false} ChaptersCons(readable: string, subject: string, units: seq<Json>, o: Oracles)
    requires units != []
    ensures var c := UnitChapter(readable, subject, units[0], o);
            Chapters(readable, subject, units, o)
            == if c.None? then None else Prepend([c.value], Chapters(readable, subject, units[1..], o))
  {
    assert UnitChapterOf(readable, subject, o)(units[0]) == UnitChapter(readable, subject, units[0], o);
  }

  /** One pass of the units loop: after the chapters `done` of the units
      before `k`, unit `k` either raises, and then there are no chapters, or
      adds its chapter. */
  lemma {:induction false} UnitsLoopStep(readable: string, subject: string, units: seq<Json>, o: Oracles, k: nat, done: seq<Chapter>)
    requires k < |units|
    requires Chapters(readable, subject, units, o) == Prepend(done, Chapters(readable, subject, units[k..], o))
    ensures var c := UnitChapter(readable, subject, units[k], o);
            && (c.None? ==> Chapters(readable, subject, units, o).None?)
            && (c.Some? ==> Chapters(readable, subject, units, o)
                            == Prepend(done + [c.value], Chapters(readable, subject, units[k + 1..], o)))
  {
    assert units[k..][1..] == units[k + 1..];
    ChaptersCons(readable, subject, units[k..], o);
    var c := UnitChapter(readable, subject, units[k], o);
    if c.Some? {
      PrependSnoc(done, c.value, Chapters(readable, subject, units[k + 1..], o));
    }
  }

  /** The chapters are the units' chapters, one for one. */
  lemma {:induction false} ChaptersSome(readable: string, subject: string, units: seq<Json>, o: Oracles)
    requires Chapters(readable, subject, units, o).Some?
    ensures var cs := Chapters(readable, subject, units, o).value;
            && |cs| == |units|
            && forall k | 0 <= k < |units| :: UnitChapter(readable, subject, units[k], o) == Some(cs[k])
  {
    var f := UnitChapterOf(readable, subject, o);
    MapOrRaiseSome(f, units);
    forall k | 0 <= k < |units|
      ensures UnitChapter(readable, subject, units[k], o) == Some(Chapters(readable, subject, units, o).value[k])
    {
      assert f(units[k]) == UnitChapter(readable, subject, units[k], o);
    }
  }

  /** There are no chapters only when some unit raises. */
  lemma {:induction false} ChaptersNone(readable: string, subject: string, units: seq<Json>, o: Oracles)
    requires Chapters(readable, subject, units, o).None?
    ensures exists k | 0 <= k < |units| :: UnitChapter(readable, subject, units[k], o).None?
  {
    var f := UnitChapterOf(readable, subject, o);
    MapOrRaiseNone(f, units);
    var k :| 0 <= k < |units| && f(units[k]).None?;
    assert f(units[k]) == UnitChapter(readable, subject, units[k], o);
  }

  /** `m` with `cs` appended to the chapters of `cls` and `subject`. */
  function AppendChapters(m: CourseMap, cls: string, subject: string, cs: seq<Chapter>): (r: CourseMap)
    requires cls in m && subject in m[cls]
    ensures Extends(m, r) && cls in r && subject in r[cls]
  {
    m[cls := m[cls][subject := m[cls][subject] + cs]]
  }

  lemma {:induction false} AppendNoChapters(m: CourseMap, cls: string, subject: string)
    requires cls in m && subject in m[cls]
    ensures AppendChapters(m, cls, subject, []) == m
  {
    assert m[cls][subject] + [] == m[cls][subject];
    assert m[cls][subject := m[cls][subject]] == m[cls];
  }

  lemma {:induction false} AppendOneChapter(m: CourseMap, cls: string, subject: string, cs: seq<Chapter>, c: Chapter)
    requires cls in m && subject in m[cls]
    ensures var m' := AppendChapters(m, cls, subject, cs);
            cls in m' && subject in m'[cls]
            && AppendChapters(m', cls, subject, [c]) == AppendChapters(m, cls, subject, cs + [c])
  {
    var m' := AppendChapters(m, cls, subject, cs);
    assert (m[cls][subject] + cs) + [c] == m[cls][subject] + (cs + [c]);
    assert m'[cls][subject := m'[cls][subject] + [c]] == m[cls][subject := m[cls][subject] + (cs + [c])];
  }

  /** The units loop: each unit's chapter appended to
      course_map[class_name][subject] as soon as its topics are done. */
  method AddUnits(m0: CourseMap, cls: string, readable: string, subject: string, units: seq<Json>, o: Oracles)
    returns (r: Option<CourseMap>)
    requires cls in m0 && subject in m0[cls]
    ensures r.None? <==> Chapters(readable, subject, units, o).None?
    ensures r.Some? ==> r.value == AppendChapters(m0, cls, subject, Chapters(readable, subject, units, o).value)
  {
    var m := m0;
    var done: seq<Chapter> := [];
    var k := 0;
    AppendNoChapters(m0, cls, subject);
    PrependNil(Chapters(readable, subject, units, o));
    while k < |units|
      invariant 0 <= k <= |units|
      invariant cls in m && subject in m[cls]
      invariant m == AppendChapters(m0, cls, subject, done)
      invariant Chapters(readable, subject, units, o) == Prepend(done, Chapters(readable, subject, units[k..], o))
    {
      var c := ProcessUnit(readable, subject, units[k], o);
      UnitsLoopStep(readable, subject, units, o, k, done);
      if c.None? {
        return None;
      }
      AppendOneChapter(m0, cls, subject, done, c.value);
      m := m[cls := m[cls][subject := m[cls][subject] + [c.value]]];
      done := done + [c.value];
      k := k + 1;
    }
    assert units[k..] == [];
    assert done + [] == done;
    r := Some(m);
  }

  /** Chapters are only ever appended: every class, subject and chapter
      already recorded is still there, in the same place. */
  predicate Extends(m: CourseMap, m': CourseMap) {
    forall c | c in m :: c in m' && forall s | s in m[c] :: s in m'[c] && m[c][s] <= m'[c][s]
  }

  lemma {:induction false} ExtendsTrans(m1: CourseMap, m2: CourseMap, m3: CourseMap)
    requires Extends(m1, m2) && Extends(m2, m3)
    ensures Extends(m1, m3)
  {
  }

  /** course_map.setdefault(class, {}) and then .setdefault(subject, []):
      the keys are there afterwards, and nothing present before changes. */
  function Touch(m: CourseMap, cls: string, subject: string): (r: CourseMap)
    ensures Extends(m, r) && cls in r && subject in r[cls]
    ensures cls in m && subject in m[cls] ==> r == m
    ensures !(cls in m && subject in m[cls]) ==> r[cls][subject] == []
  {
    var m1 := if cls in m then m else m[cls := map[]];
    if subject in m1[cls] then m1 else m1[cls := m1[cls][subject := []]]
  }

  /** course_map[c][s], or no chapters when either key is missing. */
  function Recorded(m: CourseMap, c: string, s: string): seq<Chapter> {
    if c in m && s in m[c] then m[c][s] else []
  }

  /** Both keys are in the course map. */
  predicate Has(m: CourseMap, c: string, s: string) {
    c in m && s in m[c]
  }

  /** The chapters one subject contributes: chapters.get("Units", []) walked
      unit by unit. None when `chapters` is not a dict, the units cannot be
      iterated or a unit raises. */
  function SubjectChapters(readable: string, f: Field, o: Oracles): Option<seq<Chapter>> {
    if !f.value.JObject? then None
    else
      match Iterate(Get(f.value.fields, "Units", EmptyArray))
      case None => None
      case Some(units) => Chapters(readable, f.key, units, o)
  }

  /** The body of the subjects loop for one subject: the class and subject
      keys are made first, then the subject's chapters are appended to its
      list. Nothing else changes. */
  function SubjectStep(m: CourseMap, cls: string, readable: string, f: Field, o: Oracles): (r: Option<CourseMap>)
    ensures r.None? <==> SubjectChapters(readable, f, o).None?
    ensures r.Some? ==> r.value == AppendChapters(Touch(m, cls, f.key), cls, f.key, SubjectChapters(readable, f, o).value)
    ensures r.Some? ==> Extends(m, r.value) && cls in r.value && f.key in r.value[cls]
    ensures r.Some? ==> forall c :: c in r.value <==> c in m || c == cls
    ensures r.Some? ==> forall c, s :: Has(r.value, c, s) <==> Has(m, c, s) || (c == cls && s == f.key)
    ensures r.Some? ==> forall c, s :: Recorded(r.value, c, s)
                          == Recorded(m, c, s) + (if c == cls && s == f.key then SubjectChapters(readable, f, o).value else [])
  {
    match SubjectChapters(readable, f, o)
    case None => None
    case Some(cs) =>
      TouchAppendKeys(m, cls, f.key, cs);
      TouchAppendRecorded(m, cls, f.key, cs);
      Some(AppendChapters(Touch(m, cls, f.key), cls, f.key, cs))
  }

  /** Making the keys and appending `cs` adds exactly the class and the
      subject keys. */
  lemma {:induction false} TouchAppendKeys(m: CourseMap, cls: string, subject: string, cs: seq<Chapter>)
    ensures var r := AppendChapters(Touch(m, cls, subject), cls, subject, cs);
            && (forall c :: c in r <==> c in m || c == cls)
            && (forall c, s :: Has(r, c, s) <==> Has(m, c, s) || (c == cls && s == subject))
  {
    var r := AppendChapters(Touch(m, cls, subject), cls, subject, cs);
    forall c, s
      ensures Has(r, c, s) <==> Has(m, c, s) || (c == cls && s == subject)
    {
      if c == cls && s != subject {
        assert s in r[cls] <==> Has(m, cls, s);
      }
    }
  }

  /** Making the keys and appending `cs` changes one list only, by
      appending `cs` to it. */
  lemma {:induction false} TouchAppendRecorded(m: CourseMap, cls: string, subject: string, cs: seq<Chapter>)
    ensures var r := AppendChapters(Touch(m, cls, subject), cls, subject, cs);
            forall c, s :: Recorded(r, c, s) == Recorded(m, c, s) + (if c == cls && s == subject then cs else [])
  {
    var r := AppendChapters(Touch(m, cls, subject), cls, subject, cs);
    forall c, s
      ensures Recorded(r, c, s) == Recorded(m, c, s) + (if c == cls && s == subject then cs else [])
    {
      if c != cls {
        assert c in m ==> r[c] == m[c];
        assert Recorded(m, c, s) + [] == Recorded(m, c, s);
      } else if s != subject {
        assert Has(m, cls, s) ==> s in r[cls] && r[cls][s] == m[cls][s];
        assert Recorded(m, c, s) + [] == Recorded(m, c, s);
      } else {
        assert r[cls][subject] == Recorded(m, cls, subject) + cs;
      }
    }
  }

  /** The subjects loop of one class. */
  function SubjectsFold(m: CourseMap, cls: string, readable: string, subjects: seq<Field>, o: Oracles): (r: Option<CourseMap>)
    ensures r.Some? ==> Extends(m, r.value)
    ensures r.Some? ==> forall k | 0 <= k < |subjects| :: cls in r.value && subjects[k].key in r.value[cls]
    decreases |subjects|
  {
    if subjects == [] then Some(m)
    else
      match SubjectStep(m, cls, readable, subjects[0], o)
      case None => None
      case Some(m') =>
        var r := SubjectsFold(m', cls, readable, subjects[1..], o);
        SubjectsFoldCons(m, m', cls, subjects, r);
        r
  }

  /** The first subject's keys and the rest's keys together are all the
      subjects' keys, and extending twice is extending. */
  lemma {:induction false} SubjectsFoldCons(m: CourseMap, m': CourseMap, cls: string, subjects: seq<Field>, r: Option<CourseMap>)
    requires subjects != []
    requires Extends(m, m') && cls in m' && subjects[0].key in m'[cls]
    requires r.Some? ==> Extends(m', r.value)
    requires r.Some? ==> forall k | 0 <= k < |subjects[1..]| :: cls in r.value && subjects[1..][k].key in r.value[cls]
    ensures r.Some? ==> Extends(m, r.value)
    ensures r.Some? ==> forall k | 0 <= k < |subjects| :: cls in r.value && subjects[k].key in r.value[cls]
  {
    if r.Some? {
      ExtendsTrans(m, m', r.value);
      forall k | 0 <= k < |subjects|
        ensures cls in r.value && subjects[k].key in r.value[cls]
      {
        if k > 0 {
          assert subjects[k] == subjects[1..][k - 1];
        }
      }
    }
  }

  /** The chapters of the subjects keyed `s`, in subject order. */
  function SubjectsChapters(readable: string, subjects: seq<Field>, s: string, o: Oracles): seq<Chapter>
    decreases |subjects|
  {
    if subjects == [] then []
    else
      var cs := SubjectChapters(readable, subjects[0], o);
      (if subjects[0].key == s && cs.Some? then cs.value else []) + SubjectsChapters(readable, subjects[1..], s, o)
  }

  /** The subjects loop of one class raises exactly when one subject does. */
  lemma {:induction false} SubjectsFoldFails(m: CourseMap, cls: string, readable: string, subjects: seq<Field>, o: Oracles)
    ensures SubjectsFold(m, cls, readable, subjects, o).None?
        <==> exists k | 0 <= k < |subjects| :: SubjectChapters(readable, subjects[k], o).None?
    decreases |subjects|
  {
    if subjects != [] {
      var step := SubjectStep(m, cls, readable, subjects[0], o);
      SubjectsShift(readable, subjects, o);
      if step.Some? {
        SubjectsFoldFails(step.value, cls, readable, subjects[1..], o);
      }
    }
  }

  /** After the subjects loop of one class, the class has a key when it has
      a subject, and its subject keys are the old ones and those listed;
      other classes keep their keys. */
  lemma {:induction false} SubjectsFoldKeys(m: CourseMap, cls: string, readable: string, subjects: seq<Field>, o: Oracles)
    ensures var r := SubjectsFold(m, cls, readable, subjects, o);
            && (r.Some? ==> forall c :: c in r.value <==> c in m || (c == cls && subjects != []))
            && (r.Some? ==> forall c, s :: Has(r.value, c, s) <==> Has(m, c, s) || (c == cls && HasKey(subjects, s)))
    decreases |subjects|
  {
    if subjects != [] {
      var step := SubjectStep(m, cls, readable, subjects[0], o);
      if step.Some? {
        SubjectsFoldKeys(step.value, cls, readable, subjects[1..], o);
        SubjectsShift(readable, subjects, o);
      }
    }
  }

  /** After the subjects loop of one class, each of its lists has gained the
      chapters of the subjects of that name, in order; every other list is
      left alone. */
  lemma {:induction false} SubjectsFoldContents(m: CourseMap, cls: string, readable: string, subjects: seq<Field>, o: Oracles)
    ensures var r := SubjectsFold(m, cls, readable, subjects, o);
            r.Some? ==> forall c, s :: Recorded(r.value, c, s)
                          == Recorded(m, c, s) + (if c == cls then SubjectsChapters(readable, subjects, s, o) else [])
    decreases |subjects|
  {
    if subjects == [] {
      forall c, s
        ensures Recorded(m, c, s) == Recorded(m, c, s) + (if c == cls then SubjectsChapters(readable, subjects, s, o) else [])
      {
        assert Recorded(m, c, s) + [] == Recorded(m, c, s);
      }
      return;
    }
    var f, rest := subjects[0], subjects[1..];
    var step := SubjectStep(m, cls, readable, f, o);
    if step.None? {
      return;
    }
    var m' := step.value;
    SubjectsFoldContents(m', cls, readable, rest, o);
    var r := SubjectsFold(m', cls, readable, rest, o);
    if r.Some? {
      forall c, s
        ensures Recorded(r.value, c, s) == Recorded(m, c, s) + (if c == cls then SubjectsChapters(readable, subjects, s, o) else [])
      {
        if c == cls {
          var cs := if f.key == s then SubjectChapters(readable, f, o).value else [];
          Reassociate(Recorded(m, c, s), cs, SubjectsChapters(readable, rest, s, o));
        } else {
          assert Recorded(m, c, s) + [] == Recorded(m, c, s);
        }
      }
    }
  }

  /** A subject of `subjects` fails, or has key `s`, when the first does or
      one of the rest does. */
  lemma {:induction false} SubjectsShift(readable: string, subjects: seq<Field>, o: Oracles)
    requires subjects != []
    ensures (exists k | 0 <= k < |subjects| :: SubjectChapters(readable, subjects[k], o).None?)
        <==> SubjectChapters(readable, subjects[0], o).None?
             || exists k | 0 <= k < |subjects[1..]| :: SubjectChapters(readable, subjects[1..][k], o).None?
    ensures forall s :: HasKey(subjects, s) <==> subjects[0].key == s || HasKey(subjects[1..], s)
  {
    if k :| 0 <= k < |subjects| && SubjectChapters(readable, subjects[k], o).None? {
      if k > 0 {
        assert subjects[1..][k - 1] == subjects[k];
      }
    }
    if k :| 0 <= k < |subjects[1..]| && SubjectChapters(readable, subjects[1..][k], o).None? {
      assert subjects[k + 1] == subjects[1..][k];
    }
    forall s
      ensures HasKey(subjects, s) <==> subjects[0].key == s || HasKey(subjects[1..], s)
    {
      if k :| 0 <= k < |subjects| && subjects[k].key == s {
        if k > 0 {
          assert subjects[1..][k - 1] == subjects[k];
        }
      }
      if k :| 0 <= k < |subjects[1..]| && subjects[1..][k].key == s {
        assert subjects[k + 1] == subjects[1..][k];
      }
    }
  }

  /** One subject of the subjects loop: the class and subject keys, then
      the units. */
  method AddSubject(m0: CourseMap, cls: string, readable: string, f: Field, o: Oracles)
    returns (r: Option<CourseMap>)
    ensures r == SubjectStep(m0, cls, readable, f, o)
  {
    var m := m0;
    var subject, chapters := f.key, f.value;
    if cls !in m {
      m := m[cls := map[]];
    }
    if subject !in m[cls] {
      m := m[cls := m[cls][subject := []]];
    }
    if !chapters.JObject? {
      return None;
    }
    var units := Iterate(Get(chapters.fields, "Units", EmptyArray));
    if units.None? {
      return None;
    }
    r := AddUnits(m, cls, readable, subject, units.value, o);
  }

  /** `for subject, chapters in subjects.items()` */
  method AddSubjects(m0: CourseMap, cls: string, readable: string, subjects: seq<Field>, o: Oracles)
    returns (r: Option<CourseMap>)
    ensures r == SubjectsFold(m0, cls, readable, subjects, o)
  {
    var m := m0;
    var k := 0;
    while k < |subjects|
      invariant 0 <= k <= |subjects|
      invariant SubjectsFold(m, cls, readable, subjects[k..], o) == SubjectsFold(m0, cls, readable, subjects, o)
    {
      assert subjects[k..][1..] == subjects[k + 1..];
      var next := AddSubject(m, cls, readable, subjects[k], o);
      if next.None? {
        return None;
      }
      m := next.value;
      k := k + 1;
    }
    r := Some(m);
  }

  /** The classes loop of one syllabus: `subjects.items()` raises unless the
      value is a dict. */
  function ClassesFold(m: CourseMap, classes: seq<Field>, o: Oracles): (r: Option<CourseMap>)
    ensures r.Some? ==> Extends(m, r.value)
    decreases |classes|
  {
    if classes == [] then Some(m)
    else
      var f := classes[0];
      if !f.value.JObject? then None
      else
        match SubjectsFold(m, f.key, ReplaceChar(f.key, '_', ' '), f.value.fields, o)
        case None => None
        case Some(m') =>
          var r := ClassesFold(m', classes[1..], o);
          assert r.Some? ==> Extends(m, r.value) by {
            if r.Some? { ExtendsTrans(m, m', r.value); }
          }
          r
  }

  /** A class of a syllabus raises: its subjects are not a dict, or one of
      its subjects raises, read under the class's readable name. */
  predicate ClassFails(f: Field, o: Oracles) {
    || !f.value.JObject?
    || exists k | 0 <= k < |f.value.fields| :: SubjectChapters(ReplaceChar(f.key, '_', ' '), f.value.fields[k], o).None?
  }

  /** Some class keyed `c` has a subject. */
  predicate ListsClass(classes: seq<Field>, c: string) {
    exists k | 0 <= k < |classes| :: classes[k].key == c && classes[k].value.JObject? && classes[k].value.fields != []
  }

  /** Some class keyed `c` has a subject keyed `s`. */
  predicate ListsSubject(classes: seq<Field>, c: string, s: string) {
    exists k | 0 <= k < |classes| :: classes[k].key == c && classes[k].value.JObject? && HasKey(classes[k].value.fields, s)
  }

  /** The chapters the classes keyed `c` give the subject `s`, in order;
      the class's name is read with '_' as ' '. */
  function ClassesChapters(classes: seq<Field>, c: string, s: string, o: Oracles): seq<Chapter>
    decreases |classes|
  {
    if classes == [] then []
    else
      var f := classes[0];
      (if f.key == c && f.value.JObject? then SubjectsChapters(ReplaceChar(c, '_', ' '), f.value.fields, s, o) else [])
      + ClassesChapters(classes[1..], c, s, o)
  }

  /** The classes of one syllabus raise exactly when one class does. */
  lemma {:induction false} ClassesFoldFails(m: CourseMap, classes: seq<Field>, o: Oracles)
    ensures ClassesFold(m, classes, o).None? <==> exists k | 0 <= k < |classes| :: ClassFails(classes[k], o)
    decreases |classes|
  {
    if classes != [] {
      var f := classes[0];
      ExistsShift(classes, g => ClassFails(g, o));
      if f.value.JObject? {
        var readable := ReplaceChar(f.key, '_', ' ');
        SubjectsFoldFails(m, f.key, readable, f.value.fields, o);
        var step := SubjectsFold(m, f.key, readable, f.value.fields, o);
        if step.Some? {
          ClassesFoldFails(step.value, classes[1..], o);
        }
      }
    }
  }

  /** After the classes of one syllabus, the class keys are the old ones and
      those of classes with subjects, and the subject keys are the old ones
      and those the classes list. */
  lemma {:induction false} ClassesFoldKeys(m: CourseMap, classes: seq<Field>, o: Oracles)
    ensures var r := ClassesFold(m, classes, o);
            && (r.Some? ==> forall c :: c in r.value <==> c in m || ListsClass(classes, c))
            && (r.Some? ==> forall c, s :: Has(r.value, c, s) <==> Has(m, c, s) || ListsSubject(classes, c, s))
    decreases |classes|
  {
    if classes == [] || !classes[0].value.JObject? {
      return;
    }
    var f, rest := classes[0], classes[1..];
    var readable := ReplaceChar(f.key, '_', ' ');
    SubjectsFoldKeys(m, f.key, readable, f.value.fields, o);
    var step := SubjectsFold(m, f.key, readable, f.value.fields, o);
    if step.None? {
      return;
    }
    ClassesFoldKeys(step.value, rest, o);
    var r := ClassesFold(step.value, rest, o);
    if r.Some? {
      forall c
        ensures c in r.value <==> c in m || ListsClass(classes, c)
      {
        ExistsShift(classes, (g: Field) => g.key == c && g.value.JObject? && g.value.fields != []);
      }
      forall c, s
        ensures Has(r.value, c, s) <==> Has(m, c, s) || ListsSubject(classes, c, s)
      {
        ExistsShift(classes, (g: Field) => g.key == c && g.value.JObject? && HasKey(g.value.fields, s));
      }
    }
  }

  /** After the classes of one syllabus, each list has gained, in order, the
      chapters of every subject of that name in every class of that name. */
  lemma {:induction false} ClassesFoldContents(m: CourseMap, classes: seq<Field>, o: Oracles)
    ensures var r := ClassesFold(m, classes, o);
            r.Some? ==> forall c, s :: Recorded(r.value, c, s) == Recorded(m, c, s) + ClassesChapters(classes, c, s, o)
    decreases |classes|
  {
    if classes == [] {
      forall c, s
        ensures Recorded(m, c, s) == Recorded(m, c, s) + ClassesChapters(classes, c, s, o)
      {
        assert Recorded(m, c, s) + [] == Recorded(m, c, s);
      }
      return;
    }
    var f, rest := classes[0], classes[1..];
    if !f.value.JObject? {
      return;
    }
    var readable := ReplaceChar(f.key, '_', ' ');
    SubjectsFoldContents(m, f.key, readable, f.value.fields, o);
    var step := SubjectsFold(m, f.key, readable, f.value.fields, o);
    if step.None? {
      return;
    }
    var m' := step.value;
    ClassesFoldContents(m', rest, o);
    var r := ClassesFold(m', rest, o);
    if r.Some? {
      forall c, s
        ensures Recorded(r.value, c, s) == Recorded(m, c, s) + ClassesChapters(classes, c, s, o)
      {
        var cs := if c == f.key then SubjectsChapters(readable, f.value.fields, s, o) else [];
        assert Recorded(m', c, s) == Recorded(m, c, s) + cs;
        Reassociate(Recorded(m, c, s), cs, ClassesChapters(rest, c, s, o));
      }
    }
  }

  /** `for class_name, subjects in syllabus.items()` */
  method AddClasses(m0: CourseMap, classes: seq<Field>, o: Oracles) returns (r: Option<CourseMap>)
    ensures r == ClassesFold(m0, classes, o)
  {
    var m := m0;
    var k := 0;
    while k < |classes|
      invariant 0 <= k <= |classes|
      invariant ClassesFold(m, classes[k..], o) == ClassesFold(m0, classes, o)
    {
      assert classes[k..][1..] == classes[k + 1..];
      var className, subjects := classes[k].key, classes[k].value;
      var readable := ReplaceChar(className, '_', ' ');
      if !subjects.JObject? {
        return None;
      }
      var next := AddSubjects(m, className, readable, subjects.fields, o);
      if next.None? {
        return None;
      }
      m := next.value;
      k := k + 1;
    }
    r := Some(m);
  }

  /** The files loop: json.load on each file's text, then its classes. */
  function FilesFold(m: CourseMap, files: seq<string>, o: Oracles): (r: Option<CourseMap>)
    ensures r.Some? ==> Extends(m, r.value)
    decreases |files|
  {
    if files == [] then Some(m)
    else
      match o.parse(files[0])
      case Failed(_) => None
      case Parsed(syllabus) =>
        if !syllabus.JObject? then None
        else
          match ClassesFold(m, syllabus.fields, o)
          case None => None
          case Some(m') =>
            var r := FilesFold(m', files[1..], o);
            assert r.Some? ==> Extends(m, r.value) by {
              if r.Some? { ExtendsTrans(m, m', r.value); }
            }
            r
  }

  /** json.load of a syllabus file, when it gives a dict: its classes. */
  function Classes(file: string, o: Oracles): Option<seq<Field>> {
    match o.parse(file)
    case Parsed(JObject(fields)) => Some(fields)
    case _ => None
  }

  /** A syllabus file raises: it is not JSON, not a dict, or one of its
      classes raises. */
  predicate FileFails(file: string, o: Oracles) {
    || Classes(file, o).None?
    || exists k | 0 <= k < |Classes(file, o).value| :: ClassFails(Classes(file, o).value[k], o)
  }

  /** The chapters all files give class `c` and subject `s`, in file order. */
  function FilesChapters(files: seq<string>, c: string, s: string, o: Oracles): seq<Chapter>
    decreases |files|
  {
    if files == [] then []
    else
      (match Classes(files[0], o) case None => [] case Some(classes) => ClassesChapters(classes, c, s, o))
      + FilesChapters(files[1..], c, s, o)
  }

  /** Some file has a class keyed `c` with a subject. */
  predicate FilesListClass(files: seq<string>, c: string, o: Oracles) {
    exists i | 0 <= i < |files| :: Classes(files[i], o).Some? && ListsClass(Classes(files[i], o).value, c)
  }

  /** Some file has a class keyed `c` with a subject keyed `s`. */
  predicate FilesListSubject(files: seq<string>, c: string, s: string, o: Oracles) {
    exists i | 0 <= i < |files| :: Classes(files[i], o).Some? && ListsSubject(Classes(files[i], o).value, c, s)
  }

  /** The files loop raises exactly when one file does. */
  lemma {:induction false} FilesFoldFails(m: CourseMap, files: seq<string>, o: Oracles)
    ensures FilesFold(m, files, o).None? <==> exists i | 0 <= i < |files| :: FileFails(files[i], o)
    decreases |files|
  {
    if files != [] {
      ExistsShift(files, x => FileFails(x, o));
      if Classes(files[0], o).Some? {
        var classes := Classes(files[0], o).value;
        assert o.parse(files[0]) == Parsed(JObject(classes));
        ClassesFoldFails(m, classes, o);
        var step := ClassesFold(m, classes, o);
        if step.Some? {
          FilesFoldFails(step.value, files[1..], o);
        }
      }
    }
  }

  /** After the files loop, the keys are the old ones and those the files
      list. */
  lemma {:induction false} FilesFoldKeys(m: CourseMap, files: seq<string>, o: Oracles)
    ensures var r := FilesFold(m, files, o);
            && (r.Some? ==> forall c :: c in r.value <==> c in m || FilesListClass(files, c, o))
            && (r.Some? ==> forall c, s :: Has(r.value, c, s) <==> Has(m, c, s) || FilesListSubject(files, c, s, o))
    decreases |files|
  {
    if files == [] || Classes(files[0], o).None? {
      return;
    }
    var classes := Classes(files[0], o).value;
    assert o.parse(files[0]) == Parsed(JObject(classes));
    ClassesFoldKeys(m, classes, o);
    var step := ClassesFold(m, classes, o);
    if step.None? {
      return;
    }
    FilesFoldKeys(step.value, files[1..], o);
    var r := FilesFold(step.value, files[1..], o);
    if r.Some? {
      forall c
        ensures c in r.value <==> c in m || FilesListClass(files, c, o)
      {
        ExistsShift(files, x => Classes(x, o).Some? && ListsClass(Classes(x, o).value, c));
      }
      forall c, s
        ensures Has(r.value, c, s) <==> Has(m, c, s) || FilesListSubject(files, c, s, o)
      {
        ExistsShift(files, x => Classes(x, o).Some? && ListsSubject(Classes(x, o).value, c, s));
      }
    }
  }

  /** After the files loop, each list has gained the chapters the files give
      it, in file order. */
  lemma {:induction false} FilesFoldContents(m: CourseMap, files: seq<string>, o: Oracles)
    ensures var r := FilesFold(m, files, o);
            r.Some? ==> forall c, s :: Recorded(r.value, c, s) == Recorded(m, c, s) + FilesChapters(files, c, s, o)
    decreases |files|
  {
    if files == [] {
      forall c, s
        ensures Recorded(m, c, s) == Recorded(m, c, s) + FilesChapters(files, c, s, o)
      {
        assert Recorded(m, c, s) + [] == Recorded(m, c, s);
      }
      return;
    }
    if Classes(files[0], o).None? {
      return;
    }
    var classes := Classes(files[0], o).value;
    assert o.parse(files[0]) == Parsed(JObject(classes));
    ClassesFoldContents(m, classes, o);
    var step := ClassesFold(m, classes, o);
    if step.None? {
      return;
    }
    FilesFoldContents(step.value, files[1..], o);
    var r := FilesFold(step.value, files[1..], o);
    if r.Some? {
      forall c, s
        ensures Recorded(r.value, c, s) == Recorded(m, c, s) + FilesChapters(files, c, s, o)
      {
        Reassociate(Recorded(m, c, s), ClassesChapters(classes, c, s, o), FilesChapters(files[1..], c, s, o));
      }
    }
  }

  /** Every chapter carries `readable` as its "class". */
  predicate ShownAs(cs: seq<Chapter>, readable: string) {
    forall k | 0 <= k < |cs| :: cs[k].className == readable
  }

  lemma {:induction false} ShownAppend(a: seq<Chapter>, b: seq<Chapter>, readable: string)
    requires ShownAs(a, readable) && ShownAs(b, readable)
    ensures ShownAs(a + b, readable)
  {
    forall k | 0 <= k < |a + b|
      ensures (a + b)[k].className == readable
    {
      if k >= |a| {
        assert (a + b)[k] == b[k - |a|];
      }
    }
  }

  /** A subject's chapters carry the readable class name they were made
      under. */
  lemma {:induction false} SubjectsChaptersShown(readable: string, subjects: seq<Field>, s: string, o: Oracles)
    ensures ShownAs(SubjectsChapters(readable, subjects, s, o), readable)
    decreases |subjects|
  {
    if subjects != [] {
      var cs := SubjectChapters(readable, subjects[0], o);
      if subjects[0].key == s && cs.Some? {
        var units := Iterate(Get(subjects[0].value.fields, "Units", EmptyArray)).value;
        ChaptersSome(readable, s, units, o);
        assert ShownAs(cs.value, readable);
      }
      SubjectsChaptersShown(readable, subjects[1..], s, o);
      ShownAppend(if subjects[0].key == s && cs.Some? then cs.value else [], SubjectsChapters(readable, subjects[1..], s, o), readable);
    }
  }

  /** Every chapter the files give class `c` shows the class as `c` with
      '_' read as ' '. */
  lemma {:induction false} FilesChaptersShown(files: seq<string>, c: string, s: string, o: Oracles)
    ensures ShownAs(FilesChapters(files, c, s, o), ReplaceChar(c, '_', ' '))
    decreases |files|
  {
    if files != [] {
      var cs := match Classes(files[0], o) case None => [] case Some(classes) => ClassesChapters(classes, c, s, o);
      if Classes(files[0], o).Some? {
        ClassesChaptersShown(Classes(files[0], o).value, c, s, o);
      }
      FilesChaptersShown(files[1..], c, s, o);
      ShownAppend(cs, FilesChapters(files[1..], c, s, o), ReplaceChar(c, '_', ' '));
    }
  }

  lemma {:induction false} ClassesChaptersShown(classes: seq<Field>, c: string, s: string, o: Oracles)
    ensures ShownAs(ClassesChapters(classes, c, s, o), ReplaceChar(c, '_', ' '))
    decreases |classes|
  {
    if classes != [] {
      var f := classes[0];
      var readable := ReplaceChar(c, '_', ' ');
      var cs := if f.key == c && f.value.JObject? then SubjectsChapters(readable, f.value.fields, s, o) else [];
      if f.key == c && f.value.JObject? {
        SubjectsChaptersShown(readable, f.value.fields, s, o);
      }
      ClassesChaptersShown(classes[1..], c, s, o);
      ShownAppend(cs, ClassesChapters(classes[1..], c, s, o), readable);
    }
  }

  /** build_course_data over the texts of the syllabus files: no file at all
      raises FileNotFoundError; otherwise the files are read in order into
      one course map. */
  method BuildCourseData(files: seq<string>, o: Oracles) returns (r: Option<CourseMap>)
    ensures files == [] ==> r.None?
    ensures files != [] ==> r == FilesFold(map[], files, o)
  {
    if files == [] {
      return None;
    }
    var m: CourseMap := map[];
    var k := 0;
    while k < |files|
      invariant 0 <= k <= |files|
      invariant FilesFold(m, files[k..], o) == FilesFold(map[], files, o)
    {
      assert files[k..][1..] == files[k + 1..];
      var syllabus := o.parse(files[k]);
      if syllabus.Failed? || !syllabus.value.JObject? {
        return None;
      }
      var next := AddClasses(m, syllabus.value.fields, o);
      if next.None? {
        return None;
      }
      m := next.value;
      k := k + 1;
    }
    r := Some(m);
  }

  /** The course map built from nothing: each class and subject holds
      exactly the chapters the files give it, in file order, each showing
      the class with '_' read as ' '. */
  lemma {:induction false} CourseDataContents(files: seq<string>, o: Oracles)
    requires FilesFold(map[], files, o).Some?
    ensures var r := FilesFold(map[], files, o).value;
            forall c, s :: Recorded(r, c, s) == FilesChapters(files, c, s, o) && ShownAs(Recorded(r, c, s), ReplaceChar(c, '_', ' '))
  {
    var r := FilesFold(map[], files, o).value;
    FilesFoldContents(map[], files, o);
    forall c, s
      ensures Recorded(r, c, s) == FilesChapters(files, c, s, o) && ShownAs(Recorded(r, c, s), ReplaceChar(c, '_', ' '))
    {
      assert Recorded(map[], c, s) == [];
      FilesChaptersShown(files, c, s, o);
    }
  }

  /** Appending to the one empty chapter list of a course map. */
  lemma {:induction false} AppendToEmpty(cls: string, subject: string, cs: seq<Chapter>)
    ensures var m: CourseMap := map[cls := map[subject := []]];
            AppendChapters(m, cls, subject, cs) == map[cls := map[subject := cs]]
  {
    var m: CourseMap := map[cls := map[subject := []]];
    assert m[cls][subject] + cs == cs;
    assert m[cls][subject := cs] == map[subject := cs];
  }

  /** The first subject of an empty course map makes the class and the
      subject and records the chapters of its units. */
  lemma {:induction false} FirstSubject(cls: string, readable: string, subject: string, units: seq<Json>, o: Oracles)
    requires Chapters(readable, subject, units, o).Some?
    ensures SubjectStep(map[], cls, readable, Field(subject, JObject([Field("Units", JArray(units))])), o)
         == Some(map[cls := map[subject := Chapters(readable, subject, units, o).value]])
  {
    assert Get([Field("Units", JArray(units))], "Units", EmptyArray) == JArray(units);
    var m1: CourseMap := map[cls := map[]];
    assert m1[cls := m1[cls][subject := []]] == map[cls := map[subject := []]] by {
      assert m1[cls][subject := []] == map[subject := []];
    }
    AppendToEmpty(cls, subject, Chapters(readable, subject, units, o).value);
  }

  /** One syllabus file with one class and one subject: the subject's
      chapters are its units' chapters, in unit order, and nothing else is
      recorded. */
  lemma {:induction false} SingleSubject(file: string, cls: string, subject: string, units: seq<Json>, o: Oracles)
    requires o.parse(file) == Parsed(JObject([Field(cls, JObject([Field(subject, JObject([Field("Units", JArray(units))]))]))]))
    requires Chapters(ReplaceChar(cls, '_', ' '), subject, units, o).Some?
    ensures FilesFold(map[], [file], o)
         == Some(map[cls := map[subject := Chapters(ReplaceChar(cls, '_', ' '), subject, units, o).value]])
  {
    var readable := ReplaceChar(cls, '_', ' ');
    var want: CourseMap := map[cls := map[subject := Chapters(readable, subject, units, o).value]];
    var subjectField := Field(subject, JObject([Field("Units", JArray(units))]));
    var classField := Field(cls, JObject([subjectField]));
    FirstSubject(cls, readable, subject, units, o);
    assert SubjectsFold(map[], cls, readable, [subjectField], o) == Some(want) by {
      assert [subjectField][1..] == [];
    }
    assert ClassesFold(map[], [classField], o) == Some(want) by {
      assert [classField][1..] == [];
    }
    assert [file][1..] == [];
  }
}

# Course-Generator: syllabus extraction and JSON repair, in Dafny

This project models the two text-processing cores of Course-Generator.

**`extract_syllabus.py`** turns the tables of a syllabus PDF into a course
record. The model covers the following:

- A forward-only row state machine reads the course objectives, the unit rows, the course outcomes and the three resource lists (text books, reference books, web resources). It is modelled in module `Scanner`: `Next` and `Run` are the specification, and `ExtractSyllabus` is the loop.
- A character scanner cuts each unit's raw content into topics at sentence ends and semicolons outside parentheses. A second pass re-splits list-like topics on commas. Both are in module `Topics`.
- Three string helpers live in module `SyllabusText`:
  - `clean_text`;
  - `sanitize_course_name`;
  - the heuristic that turns a course objective into a short unit title.

**`app.py`** asks a language model for study material per topic and repairs
its JSON answers. The model covers the following:

- Module `Cleaning` holds the text passes `strip_markdown_fences`, `preprocess_json`, `rule_based_clean` and `clean_and_fix_json`. It also holds the tree map `clean_json_recursively` and the cleaner that is actually used, `try_clean_and_parse`.
- Module `Generation` holds three pieces:
  - the parse decision of `generate_topic_content`;
  - the three-way outcome choice and the returned record of `_process_topic_seq`;
  - the path and body decision of `save_topic_json`, and the nesting and order of `build_course_data`.

Module `Text` holds the Python string primitives that both cores use.
Module `JsonValue` holds the JSON value tree (RFC 8259, section 3) and
`dict.get`.

The following collaborators become parameters:

- the language model (`call_ollama` on the prompts);
- `json.loads`;
- `repr`, for values an f-string shows that way.

Each is an arbitrary function in the model. A syllabus PDF arrives as one
sequence of rows, pages and tables in order, and each cell is `Option<string>`.

Three facts about `app.py` shape the model:

- `clean_and_fix_json` (app.py:298-347) is defined but never called. `_process_topic_seq` only uses `try_clean_and_parse` (app.py:366). `CleanAndFixJson` is modelled on its own and nothing in `Generation` uses it.
- On the error path, the record and the saved file hold the original language-model text, not any cleaned text (app.py:374-377). `ChooseOutcome` and `ErrorTopic` state this.
- `preprocess_json` doubles every backslash-space on each call (app.py:73), so `preprocess_json` is not idempotent. `PreprocessNotIdempotent` exhibits an input where a second application changes the text.

## Model

| member | source | states |
|---|---|---|
| SyllabusText.CleanText | extract_syllabus.py:12-16 | the result is stripped, has no line feed, and keeps every non-space character of the input in order |
| SyllabusText.CleanTextIdempotent | extract_syllabus.py:12-16 | cleaning cleaned text changes nothing |
| SyllabusText.SplitExtRoot | extract_syllabus.py:329 | the root is the whole name or the prefix before a '.' of the name |
| SyllabusText.SplitExtRootSpec | extract_syllabus.py:329 | splitext cuts exactly at the last '.' when no '/' follows it and its path component has a character other than '.' before it; without such a dot the name is kept whole |
| SyllabusText.DropSpecials | extract_syllabus.py:331 | the result is the input with exactly the characters other than word characters, white space and '-' removed, the rest kept in order |
| SyllabusText.SanitizedIsWordChars | extract_syllabus.py:327-334 | a sanitized course name consists of word characters only |
| SyllabusText.SanitizeIdempotent | extract_syllabus.py:327-334 | sanitizing a sanitized name gives it back unchanged |
| SyllabusText.SanitizeCourseName | extract_syllabus.py:327-334 | defines sanitize_course_name as splitext, then the special-character removal, then the dash and white-space runs turned into '_' |
| SyllabusText.DashesToUnderscore | extract_syllabus.py:333 | defines the replacement of each run of '-' and white space by one '_' |
| SyllabusText.KnownTitle | extract_syllabus.py:31-43 | a recognised objective maps to one of the five hand-written titles |
| SyllabusText.KnownTitleSpec | extract_syllabus.py:31-43 | title k is returned iff its phrase test passes and no earlier test does; there is no title iff none of the five tests passes |
| SyllabusText.FirstStarter | extract_syllabus.py:70-71 | it finds the first starter phrase, in list order, that prefixes the text case-insensitively; None means no phrase from that point on matches |
| SyllabusText.RemoveStarter | extract_syllabus.py:71-79 | removing a matched phrase and its connectors strictly shortens the text, which is why the loop terminates |
| SyllabusText.RemoveFirstStarter | extract_syllabus.py:72-81 | one pass over the phrase list changes the text iff some phrase prefixes it, and then removes exactly the first such phrase and its connectors |
| SyllabusText.StripStarters | extract_syllabus.py:67-81 | when the rewrite loop ends, no starter phrase prefixes the text, and the text is no longer than before |
| SyllabusText.RemoveStarterPhrases | extract_syllabus.py:67-81 | the `while changed` loop computes StripStarters |
| SyllabusText.DropStopwords | extract_syllabus.py:88-89 | the result is a prefix of the words whose last word is not a trailing connector, and every word dropped is a connector |
| SyllabusText.TrimStopwords | extract_syllabus.py:84-89 | the stopword loop over the joined words yields the join of DropStopwords |
| SyllabusText.RStripJoin | extract_syllabus.py:92 | stripping trailing punctuation from joined words equals joining the words with that punctuation trimmed from the tail |
| SyllabusText.UnitNameShape | extract_syllabus.py:28-99 | input shorter than 5 characters once stripped gives "Unit Content"; otherwise the result is "Unit Content", a known title, or a title-cased name of at most 8 words and at least 5 characters |
| SyllabusText.ExtractUnitName | extract_syllabus.py:18-99 | the method with both loops computes the unit-name specification UnitName |
| SyllabusText.UnitName | extract_syllabus.py:18-99 | defines the unit name: "Unit Content" for short input, else a known title, else the fallback name |
| SyllabusText.FallbackName | extract_syllabus.py:67-99 | defines the fallback: starters removed, at most 8 words, trailing connectors and punctuation dropped, "Unit Content" when under 5 characters, else title case |
| Text.WordsOfJoin | extract_syllabus.py:84-85 | splitting words joined by single spaces gives the same words back |
| Text.TitleShape | extract_syllabus.py:99 | title() leaves the text title-cased, of the same length, with white space in the same places |
| Topics.Keep | extract_syllabus.py:263-264 | a closed chunk adds nothing, or one non-empty stripped topic |
| Topics.TopicsShape | extract_syllabus.py:248-288 | every topic the segmenter produces is non-empty and stripped |
| Topics.SegmentTopics | extract_syllabus.py:243-288 | the index loop with depth counter computes Segment |
| Topics.Segment | extract_syllabus.py:243-288 | defines the topic split as the character scan from index 0 at depth 0 |
| Topics.ReadChar | extract_syllabus.py:249-284 | one character updates the depth by its parenthesis; at a boundary the chunk with that character is closed, otherwise the character is appended |
| Topics.Close | extract_syllabus.py:286-288 | the last chunk is added only if it is non-empty once stripped |
| Topics.SegmentKeepsText | extract_syllabus.py:248-288 | nothing is lost: the topics in order, without white space, concatenate to the raw text without white space |
| Topics.TopicsKeepText | extract_syllabus.py:248-288 | the same holds for the topics cut from any suffix of the raw text |
| Topics.KeepKeepsText | extract_syllabus.py:263-264 | closing a chunk keeps its non-space characters |
| Topics.SegmentWithoutBoundary | extract_syllabus.py:251-282 | text with no '.' or ';' boundary at depth 0 becomes a single topic |
| Topics.Sentences | extract_syllabus.py:257-271 | three letter-only sentences separated by ". " and ending in "." give exactly those three topics |
| Topics.ThreeSentences | extract_syllabus.py:257-271 | "Introduction. Basics. Summary." gives the three topics "Introduction.", "Basics." and "Summary." |
| Topics.SentenceAt | extract_syllabus.py:257-265 | a sentence of letters and spaces ending in '.', at depth 0 and followed by a space or the end, is cut off as its own topic before the rest, and the depth stays 0 |
| Topics.TidyShape | extract_syllabus.py:302-305 | comma parts kept by the flatten pass are non-empty and stripped |
| Topics.TidyKeepsText | extract_syllabus.py:302-305 | the kept comma parts hold every non-space character of the parts |
| Topics.FlattenLists | extract_syllabus.py:293-310 | the loop over topics computes ExpandAll: each list-like topic is replaced by its parts, in order |
| Topics.ExpandAll | extract_syllabus.py:293-310 | defines the flatten pass: each topic replaced by its expansion, in order |
| Topics.DashCommaCount | extract_syllabus.py:297 | defines the count of non-overlapping matches of a word, optional white space, a hyphen or en dash, at least one character and the next comma, found left to right |
| Topics.AppendParts | extract_syllabus.py:302-305 | the inner loop appends exactly the stripped non-empty comma parts |
| Topics.ExpandAllShape | extract_syllabus.py:293-310 | after flattening, every topic is still non-empty and stripped |
| Topics.ExpandKeepsText | extract_syllabus.py:300-305 | a topic with 3 or more dash-comma matches is replaced by its comma parts, which keep every non-space character; the parts joined by ',' give the topic back |
| Topics.ExpandKeeps | extract_syllabus.py:306-308 | a topic with fewer than 3 matches is kept unchanged |
| Scanner.LongCellSpec | extract_syllabus.py:133-136 | the cell scan finds nothing iff no cell is long enough; otherwise it returns the cleaned text of the first long cell |
| Scanner.FirstLongCell | extract_syllabus.py:133-136 | every cell before the returned index is short; at the index is the first long cell, whose cleaned text LongCell returns, or the index is the length of the list and LongCell returns None |
| Scanner.FindLongCell | extract_syllabus.py:133-136 | the loop with `break` over the cells after col0 computes LongCell |
| Scanner.FindLabel | extract_syllabus.py:160-164 | the loop finds the number of the first "CO<digits>" cell of the row |
| Scanner.RomanToInt | extract_syllabus.py:115 | a recognised numeral stands for a number from 1 to 6 |
| Scanner.NumeralRoundTrip | extract_syllabus.py:115 | I..VI and 1..6 correspond one to one, in both directions |
| Scanner.Add | extract_syllabus.py:223-224 | an entry is appended to the chosen resource list and the other two lists are unchanged |
| Scanner.ObjectivesRow | extract_syllabus.py:129-142 | an objectives row either stays in that phase or moves to the units |
| Scanner.UnitsRow | extract_syllabus.py:144-185 | a units row either stays in that phase or moves to the outcomes |
| Scanner.OutcomesRow | extract_syllabus.py:188-201 | an outcomes row either stays in that phase or moves to the resources |
| Scanner.ResourcesRow | extract_syllabus.py:204-224 | a resources row either stays in that phase or moves to done |
| Scanner.ResourceHeaders | extract_syllabus.py:204-214 | in the resources phase a "References Books" or "Reference Books" header selects the reference books, else a "Web Resources" header selects the web resources, else a "Methods of Evaluation" or "Methods of Assessment" header moves to done; each changes nothing else |
| Scanner.Next | extract_syllabus.py:121-229 | a row with fewer than two cells changes nothing, and neither does any row once done; otherwise the phase advances by at most one step |
| Scanner.ReadRow | extract_syllabus.py:121-229 | the dispatch over the state string computes Next |
| Scanner.Run | extract_syllabus.py:112-229 | defines the scan over rows as Next applied row by row from the start state |
| Scanner.Extract | extract_syllabus.py:101-325 | defines the result: the final units made from the closed units, the outcomes and the three resource lists |
| Scanner.ReadObjectivesRow | extract_syllabus.py:129-142 | the imperative objectives branch computes ObjectivesRow |
| Scanner.ReadUnitsRow | extract_syllabus.py:144-185 | the imperative units branch computes UnitsRow |
| Scanner.ReadOutcomesRow | extract_syllabus.py:188-201 | the imperative outcomes branch computes OutcomesRow |
| Scanner.ReadResourcesRow | extract_syllabus.py:204-224 | the imperative resources branch computes ResourcesRow |
| Scanner.ExtractSyllabus | extract_syllabus.py:101-325 | the row loop that stops at done computes Extract, and there are as many final units as closed units |
| Scanner.FinishUnits | extract_syllabus.py:235-319 | each closed unit becomes one final unit, in order, with its topics |
| Scanner.DoneIsFinal | extract_syllabus.py:212-214 | once done, no further row changes anything |
| Scanner.PhaseForward | extract_syllabus.py:112-229 | over any rows the phase never moves back, and it advances at most one step per row |
| Scanner.CurrentNumber | extract_syllabus.py:146-170 | the open unit keeps its number, or takes the number of the row's numeral |
| Scanner.ExtractedNumbers | extract_syllabus.py:115 | every extracted unit is numbered from 1 to 6 |
| Scanner.UnitsGrowByClosing | extract_syllabus.py:148-149 | a unit is appended only when a numeral row or the closing row meets an open unit, and what is appended is that open unit |
| Scanner.NumeralRowStep | extract_syllabus.py:146-170 | a numeral row closes the open unit, if any, and opens a unit with the numeral's number |
| Scanner.ClosingRowStep | extract_syllabus.py:180-185 | the closing row closes the open unit, if any, and moves to the outcomes |
| Scanner.NumeralRowsGiveUnits | extract_syllabus.py:146-183 | rows numbered I..N in order (N at most 6), then a closing row whose col0 is non-empty and no numeral, yield exactly N more units, numbered 1..N in order; a "Total" row with empty col0 is read as a continuation (line 173 is tested before line 180) and does not close |
| Scanner.ContinuationRow | extract_syllabus.py:173-177 | a row with empty col0 only extends the open unit: its number and name stay, " " and the cleaned text of the first cell over 10 characters is appended to its raw content, and with no such cell nothing changes |
| Scanner.ResourcesGrowInCurrentList | extract_syllabus.py:217-224 | resources change only through an entry row (col0 all digits or ending in '.') with a long cell, appended to the current list |
| Scanner.NextSelectsList | extract_syllabus.py:199-211 | entering the resources always selects the text books, and a list stays selected from then on |
| Scanner.RunSelectsList | extract_syllabus.py:199-211 | from the start, whenever the scan is in the resources some list is selected |
| Cleaning.StraightenQuotes | app.py:40-41 | curly double quotes become '"', curly single quotes become '\'', and nothing else changes |
| Cleaning.CollapseSpace | app.py:35 | the pass keeps emptiness and the first and last non-space characters |
| Cleaning.CollapseSpaceSingle | app.py:35 | the result has no two white-space characters in a row, and every white-space character is ' ' |
| Cleaning.CollapseSpaceKeepsText | app.py:35 | the non-space characters are unchanged |
| Cleaning.DropSpaceBeforePunct | app.py:36 | the pass keeps emptiness, the first non-space character and the last character |
| Cleaning.DropSpaceBeforePunctDone | app.py:36 | afterwards no punctuation mark follows white space |
| Cleaning.SpaceAfterPunct | app.py:37 | the pass keeps emptiness and the first and last characters |
| Cleaning.SpaceAfterPunctDone | app.py:37 | afterwards no punctuation mark is directly followed by a letter or digit |
| Cleaning.CollapseRepeats | app.py:38 | the pass keeps emptiness and the first and last characters |
| Cleaning.CollapseRepeatsDone | app.py:38 | afterwards no '!', '?', '.' or ',' is directly repeated |
| Cleaning.RepeatEnd | app.py:43 | the scan resumes after the word, or after its repeated copy |
| Cleaning.DropRepeatedWord | app.py:43 | the pass keeps emptiness and the first and last characters |
| Cleaning.DropRepeatedWordKeepsAbsent | app.py:43 | the duplicate-word pass introduces no new character |
| Cleaning.DropRepeatedWordNeedsSpace | app.py:43 | text without white space is left unchanged |
| Cleaning.PassesKeepStripped | app.py:34-41 | the passes after the initial strip keep the text stripped |
| Cleaning.RuleBasedCleanShape | app.py:33-44 | the cleaned text is stripped, holds no curly quote, has every white space a single ' ', and has no '!', '?', '.' or ',' directly repeated |
| Cleaning.RuleBasedClean | app.py:33-44 | defines rule_based_clean as the seven passes in source order |
| Cleaning.RuleBasedCleanSpacing | app.py:35-43 | the passes after the white-space collapse keep single spacing, and the passes after the repeat collapse keep it repeat-free |
| Cleaning.DropSpaceBeforePunctSingle | app.py:36 | the pass keeps single-spaced text single-spaced |
| Cleaning.SpaceAfterPunctSingle | app.py:37 | the pass keeps single-spaced text single-spaced |
| Cleaning.CollapseRepeatsSingle | app.py:38 | the pass keeps single-spaced text single-spaced |
| Cleaning.StraightenQuotesKeeps | app.py:40-41 | the quote replacements keep single spacing and keep text free of repeated '!?.,' |
| Cleaning.DropRepeatedWordKeepsSpacing | app.py:43 | the duplicate-word pass keeps single spacing and keeps text free of repeated '!?.,' |
| Cleaning.CleanAll | app.py:53 | every string leaf is cleaned, one result per leaf |
| Cleaning.CleanJsonShape | app.py:47-54 | the tree keeps its shape: the same keys in the same order, the same list lengths and the same non-string leaves; the string leaves, in order, are exactly the cleaned originals |
| Cleaning.CleanJson | app.py:47-54 | defines clean_json_recursively: strings cleaned, lists and dicts mapped element by element, other values kept |
| Cleaning.CleanArrayShape | app.py:50-51 | the list case of the shape property |
| Cleaning.CleanObjectShape | app.py:48-49 | the dict case of the shape property |
| Cleaning.CleanKeepsTruthy | app.py:47-54 | cleaning a non-string value keeps its Python truthiness |
| Cleaning.RemoveFences | app.py:62 | after the last replace, no "```" is left |
| Cleaning.StripMarkdownFencesShape | app.py:57-63 | the result is stripped and holds no "```" |
| Cleaning.StripMarkdownFences | app.py:57-63 | defines the four fence removals after the strip |
| Cleaning.DropControls | app.py:68 | no dropped control character is left; text without them is unchanged |
| Cleaning.ScanLiteral | app.py:75-79 | it finds the closing quote of a string literal and the last bare line feed inside it |
| Cleaning.JoinLinesFrom | app.py:75-79 | the two-line join keeps the length of the text |
| Cleaning.JoinPieceSpec | app.py:75-79 | each step of the join either copies one character or replaces the line feed of a string literal with a space |
| Cleaning.JoinLinesFromSpec | app.py:75-79 | the join only turns some line feeds into spaces |
| Cleaning.JoinLines | app.py:75-79 | defines the line-feed join as the scan from index 0 |
| Cleaning.PreprocessJsonShape | app.py:66-82 | the result is stripped, holds no "```", no dropped control character and no curly quote |
| Cleaning.PreprocessJson | app.py:66-82 | defines preprocess_json as its steps in source order |
| Cleaning.PreprocessSimple | app.py:66-82 | on text of letters, digits, spaces and backslashes, preprocessing is just the backslash-space doubling |
| Cleaning.PreprocessOnce | app.py:73 | one application turns backslash-space into double backslash-space |
| Cleaning.DoubleTwice | app.py:73 | the doubling applies again to already doubled text |
| Cleaning.PreprocessTwice | app.py:73 | preprocessing the once-preprocessed witness adds a third backslash |
| Cleaning.PreprocessNotIdempotent | app.py:66-82 | a second application changes the text, so `preprocess_json` is not idempotent |
| Cleaning.TryCleanAndParse | app.py:85-96 | the returned text is always preprocess(strip_fences(raw)), which is stripped and fence-free; the data is None iff the parse fails, and otherwise is the cleaned parsed tree with its shape kept |
| Cleaning.DropTrailingCommasShrinks | app.py:320 | the pass only removes characters: the result's multiset of characters is contained in the input's |
| Cleaning.DropTrailingCommasKeeps | app.py:320 | every character other than ',', '"' and white space survives, in order |
| Cleaning.DropTrailingCommas | app.py:320 | defines the single pass removing a comma and white space before ']' or '}' |
| Cleaning.TrailingCommaExample | app.py:320 | a comma and white space before ']' are removed |
| Cleaning.DoubleCommaExample | app.py:320 | for any closing bracket c, ",,c" becomes ",c": one pass removes only the comma directly before the bracket |
| Cleaning.MergeQuotes | app.py:323 | the pass only removes characters |
| Cleaning.MergeQuotesKeeps | app.py:323 | every character other than ',', '"' and white space survives, in order |
| Cleaning.MergeQuotesEmptyString | app.py:323 | an empty string literal `""` collapses to a single quote |
| Cleaning.StrayQuote | app.py:329 | a reported match is a quote, then only white space, then a '}' that ends the text or precedes its final line feed |
| Cleaning.StrayQuoteFound | app.py:329 | when the text ends in such a match, it is the one reported |
| Cleaning.DropStrayQuote | app.py:329 | the pass only removes characters, and changes the text iff a stray quote is found |
| Cleaning.DropStrayQuoteExample | app.py:329 | "1' }" becomes "1}" |
| Cleaning.KeyPieceKeeps | app.py:340 | each step of the key rewrite keeps the non-space characters of the text it consumes |
| Cleaning.SpaceAfterKeyKeeps | app.py:340 | the last-resort rewrite changes only white space, so its quote escaping never applies |
| Cleaning.SpaceAfterKey | app.py:340 | defines the key rewrite to '": "' with the value copied |
| Cleaning.FixStageNoTypographicQuote | app.py:310-329 | the first-stage text holds no curly or low-9 quote |
| Cleaning.FixStage | app.py:310-329 | defines the first stage as the quote, comma and stray-quote passes in source order |
| Cleaning.CleanAndFixJson | app.py:298-347 | data is present iff there is no error, and was parsed from the returned text; a first-stage parse that succeeds wins; a second-stage success returns the rewritten text; when both parses fail the first-stage text and the second error are returned |
| Cleaning.CleanAndFixText | app.py:331-347 | whatever the outcome, the returned text equals the first-stage text up to white space |
| JsonValue.Get | app.py:398-400 | dict.get returns the default or a value stored under the key, and the default when the key is absent |
| JsonValue.GetFirst | app.py:398-400 | dict.get returns the value of the first field with the key |
| JsonValue.Iterate | app.py:457 | iterating a list gives its items, a dict as many keys as it has, a string as many characters as it has, and anything else raises |
| JsonValue.Format | app.py:452 | an f-string shows a string as itself and an integer in decimal |
| Generation.GenerateTopicContent | app.py:259-267 | the raw answer is the language model's text; the flag is set iff json.loads fails, and then the content is {}; otherwise the content is the parsed value |
| Generation.ChooseOutcome | app.py:358-377 | a truthy direct parse is kept with the raw text; the error record is chosen iff neither the direct nor the cleaned parse is truthy, and it and the saved text hold the original raw answer; otherwise the cleaned tree of the preprocessed text is kept, with that text |
| Generation.SafeName | app.py:283 | every '/' and '\\' of the topic becomes '_' and nothing else changes |
| Generation.SafeNameKeeps | app.py:283 | a topic without separators keeps its name |
| Generation.SaveTopicJson | app.py:271-292 | a path is computed iff chapter name and topic are strings; the error directory and the "_ERROR.json" suffix are used iff the flag is set; raw text is written iff the flag is set or the value is falsy, otherwise the value is dumped |
| Generation.ProcessTopic | app.py:350-401 | the outcome and the save follow the two functions above; a record exists iff the final value is a dict, and it is named after the topic |
| Generation.ErrorTopic | app.py:374-401 | on the error path the record has empty notes, formulas and real-world lists, and the file in the error directory holds the language model's raw text |
| Generation.MissingEntry | app.py:396-401 | a missing record means a truthy non-dict value was chosen, on which `.get` raises |
| Generation.TopicEntries | app.py:457-460 | one record per topic, in topic order; no records only if some topic raises |
| Generation.ProcessTopics | app.py:457-460 | the topic loop computes TopicEntries |
| Generation.UnitChapter | app.py:444-460 | a chapter needs "Unit_Number" and "Unit_Name"; its id, name and class come from the unit, its title is "Unit {id}: {name}", and its topics follow the unit's topics in order |
| Generation.ProcessUnit | app.py:444-460 | the chapter loop body computes UnitChapter |
| Generation.ChaptersSome | app.py:444-463 | when no unit raises, there is one chapter per unit, in unit order, each the unit's own chapter |
| Generation.ChaptersNone | app.py:444-463 | when the unit loop raises, some unit's chapter raises |
| Generation.UnitsLoopStep | app.py:444-463 | after k units, a unit that raises makes the whole loop raise, and otherwise its chapter is the next one appended |
| Generation.AddUnits | app.py:442-463 | the unit loop appends exactly those chapters to the subject's list, and raises iff one unit raises |
| Generation.Touch | app.py:435-439 | the class and subject keys are made present, an existing entry is left as it is, and a new subject starts with an empty chapter list |
| Generation.SubjectStep | app.py:434-463 | one subject raises iff its chapters do; otherwise the result is the keys made and the subject's chapters appended to its list: the class and subject keys are added, and only that list changes |
| Generation.SubjectsFold | app.py:434-463 | the subjects of a class only append chapters, and every subject gets a key |
| Generation.TouchAppendKeys | app.py:435-439 | making the keys and appending adds exactly the class and subject keys |
| Generation.TouchAppendRecorded | app.py:435-463 | making the keys and appending changes exactly one list, by appending the new chapters to it |
| Generation.SubjectsFoldFails | app.py:434-463 | the subject loop raises iff some subject raises (its value is not a dict, its units cannot be iterated, or a unit raises) |
| Generation.SubjectsFoldKeys | app.py:434-439 | after the subject loop the class has a key iff it had one or has a subject, and its subject keys are exactly the old ones and the listed ones; other classes keep their keys |
| Generation.SubjectsFoldContents | app.py:434-463 | after the subject loop each list of the class has gained the chapters of the subjects of its name, in order, and other lists are unchanged |
| Generation.AddSubject | app.py:434-463 | the subject loop body computes SubjectStep |
| Generation.AddSubjects | app.py:434-463 | the subject loop computes SubjectsFold |
| Generation.ClassesFold | app.py:431-463 | the classes of a file only append chapters to the map |
| Generation.ClassesFoldFails | app.py:431-463 | the class loop raises iff some class is not a dict or has a subject that raises under the class name with '_' read as ' ' |
| Generation.ClassesFoldKeys | app.py:431-439 | after the class loop the class keys are the old ones plus those of classes with a subject, and the subject keys are the old ones plus those the classes list |
| Generation.ClassesFoldContents | app.py:431-463 | after the class loop each list has gained, in order, the chapters of its subject in every class of its name, made under the class name with '_' read as ' ' |
| Generation.AddClasses | app.py:431-463 | the class loop computes ClassesFold |
| Generation.FilesFold | app.py:425-463 | the files only append chapters to the map |
| Generation.FilesFoldFails | app.py:425-463 | the file loop raises iff some file is not a JSON dict or has a class that raises |
| Generation.FilesFoldKeys | app.py:425-439 | after the file loop the keys are the old ones plus those the files list |
| Generation.FilesFoldContents | app.py:425-463 | after the file loop each list has gained the chapters the files give it, in file order |
| Generation.SubjectsChaptersShown | app.py:432-453 | the chapters of a subject carry the readable class name they were made under |
| Generation.ClassesChaptersShown | app.py:432-453 | every chapter a class keyed c contributes shows the class as c with '_' read as ' ' |
| Generation.FilesChaptersShown | app.py:432-453 | every chapter the files give class c shows the class as c with '_' read as ' ' |
| Generation.CourseDataContents | app.py:423-465 | from the empty map, each class and subject holds exactly the chapters the files give it, in file order, each showing the readable class name |
| Generation.BuildCourseData | app.py:404-465 | no files raises; otherwise the file loop computes FilesFold from the empty map |
| Generation.FirstSubject | app.py:434-463 | the first subject of a class maps to exactly its unit chapters |
| Generation.SingleSubject | app.py:423-465 | one file with one class and one subject yields that class and subject with exactly the unit chapters, with '_' in the class name read as ' ' |

## Left out

- pdfplumber page and table extraction (extract_syllabus.py:117-121) is not modelled. The rows of every table of every page arrive as one sequence, and each cell is `Option<string>`.
- `generate_pdf_summary`, `process_pdfs`, `save_as_js`, `call_ollama`, run_pipeline.py and the `__main__` blocks are not part of this model. They are rendering, directory globbing, file writing, HTTP and user prompts.
- The language model, `json.loads`/`json.dump` and Python's `repr` are function parameters. No JSON parser or printer is written.
- All file writes, `mkdir` calls and printing are left out. `save_topic_json` is reduced to the path and the body it would write.
- The order of the file writes across a whole run is not collected. Each topic's write is stated on its own, in `ProcessTopic`.
- Elapsed-time measurement uses floats and a clock, and is left out.
- The existence check on the input folder and the `*.json` glob of `build_course_data` are left out. The files arrive as a sequence of texts.
- `\w`, `str.isdigit`, `str.lower` and `str.title` are modelled on ASCII only. Python's versions are Unicode-aware. `\s` and `str.isspace` use Python's exact set.
- JsonValue.Json stores a JSON float as a `real`. The NaN and Infinity that `json.loads` accepts therefore cannot be represented.
- A JSON object is a sequence of fields, and the model assumes its keys are distinct. The course map is a Dafny `map`, so the insertion order of class and subject keys is not modelled; chapter and topic order is.
- An exception that escapes a loop of `build_course_data` is modelled as the whole result being None. This covers `.get` on a non-dict value, a missing key and iterating a number. What was written before it is not tracked.
- Generation.ProcessTopic: a save that raises is caught and printed by the source. The model never raises there, because its save is a computed path.
- Cleaning.CleanAndFixJson: every failure of the first parse is treated as a `json.JSONDecodeError`. The source catches only that exception (app.py:336). Any other failure of `json.loads`, such as a RecursionError on deeply nested text or the ValueError for an integer literal over 4300 digits, propagates out of `clean_and_fix_json`. The model instead goes on to the last-resort rewrite. Because `ParseResult.Failed` carries no exception kind, the claim "when both parses fail, the first-stage text and the second error are returned" holds only for decode errors.
- Cleaning.CleanAndFixJson: step 5 (app.py:326) rewrites a quote as a quote and so leaves the text unchanged. It has no member of its own.
- Cleaning.DropTrailingCommas: the model, like `re.sub`, makes one pass. A bracket that was consumed is not looked at again.
- Cleaning.JoinLinesFromSpec states only that some line feeds become spaces, not which. Which ones is given by the definition of `JoinLinesFrom`.
- Cleaning.PreprocessJsonShape does not state that "\r\n" pairs are gone. A removed fence can bring '\r' and '\n' together again.
- SyllabusText.UnitNameShape: the starter phrase "A" matches as a plain prefix. It therefore also cuts the first letter off words such as "Analysis", and "An" is never reached. The model keeps this behaviour.
- Scanner.ExtractSyllabus: a unit still open when the rows run out is dropped, as in the source.
- Generation.SaveTopicJson: the path is a sequence of components. A '/' inside the class, subject or chapter name is not interpreted as a further directory.

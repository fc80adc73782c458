/**
  The row scanner of extract_syllabus.py. The tables of a syllabus PDF arrive
  as one sequence of rows (pages and tables in order); each row is a sequence
  of optional cells. A forward-only state machine reads the course objectives,
  the unit rows, the course outcomes and the three lists of resources, and the
  units are then cut into topics.
*/
module Scanner {
  import opened Text
  import opened SyllabusText
  import opened Topics

  // ---------------------------------------------------------------------------
  // Rows and cells
  // ---------------------------------------------------------------------------

  /** A table cell: its text, or None for an empty cell. */
  type Cell = Option<string>
  type Row = seq<Cell>

  /** `str(cell).strip() if cell else ""`. */
  function Col(c: Cell): string {
    match c
    case None => ""
    case Some(s) => Strip(s)
  }

  /** A cell holding text whose stripped length is over `min`. */
  predicate IsLong(c: Cell, min: nat) {
    c.Some? && |Strip(c.value)| > min
  }

  /** The loops `for cell in row[1:]: if cell and len(str(cell).strip()) > min:
      text = clean_text(str(cell)); break`: the first long cell, cleaned. */
  function LongCell(cells: seq<Cell>, min: nat): Option<string>
    decreases |cells|
  {
    if cells == [] then None
    else if IsLong(cells[0], min) then Some(CleanText(cells[0].value))
    else LongCell(cells[1..], min)
  }

  /** LongCell finds the first long cell, and only a long cell. */
  lemma {:induction false} LongCellSpec(cells: seq<Cell>, min: nat)
    ensures LongCell(cells, min).None? <==> forall k | 0 <= k < |cells| :: !IsLong(cells[k], min)
    ensures LongCell(cells, min).Some? ==>
              exists k | 0 <= k < |cells| ::
                && IsLong(cells[k], min)
                && LongCell(cells, min).value == CleanText(cells[k].value)
                && (forall j | 0 <= j < k :: !IsLong(cells[j], min))
  {
    var k := FirstLongCell(cells, min);
  }

  /** `k` is the position of the first long cell (|cells| when there is
      none), and the scan returns that cell, cleaned. */
  predicate FoundAt(cells: seq<Cell>, min: nat, k: nat) {
    && k <= |cells| && (forall j | 0 <= j < k :: !IsLong(cells[j], min))
    && (k < |cells| ==> IsLong(cells[k], min) && LongCell(cells, min) == Some(CleanText(cells[k].value)))
    && (k == |cells| ==> LongCell(cells, min).None?)
  }

  lemma {:induction false} FirstLongCell(cells: seq<Cell>, min: nat) returns (k: nat)
    ensures FoundAt(cells, min, k)
    decreases |cells|
  {
    if cells == [] || IsLong(cells[0], min) {
      k := 0;
    } else {
      var k' := FirstLongCell(cells[1..], min);
      k := k' + 1;
      FoundAfterFirst(cells, min, k');
    }
  }

  /** A short first cell moves the first long cell one place on. */
  lemma {:induction false} FoundAfterFirst(cells: seq<Cell>, min: nat, k: nat)
    requires cells != [] && !IsLong(cells[0], min) && FoundAt(cells[1..], min, k)
    ensures FoundAt(cells, min, k + 1)
  {
    assert LongCell(cells, min) == LongCell(cells[1..], min);
    if k + 1 < |cells| {
      assert cells[k + 1] == cells[1..][k];
    }
    forall j | 0 <= j < k + 1 ensures !IsLong(cells[j], min) {
      if j > 0 {
        assert cells[j] == cells[1..][j - 1];
      }
    }
  }

  /** The cell loop itself. */
  method FindLongCell(row: Row, min: nat) returns (text: Option<string>)
    requires |row| >= 1
    ensures text == LongCell(row[1..], min)
  {
    text := None;
    var k := 1;
    while k < |row|
      invariant 1 <= k <= |row|
      invariant LongCell(row[1..], min) == LongCell(row[k..], min)
    {
      assert row[k..][1..] == row[k + 1..];
      var cell := row[k];
      if cell.Some? && |Strip(cell.value)| > min {
        text := Some(CleanText(cell.value));
        return;
      }
      k := k + 1;
    }
  }

  /** `s.startswith("CO") and s[2:].isdigit()`: a course objective or
      outcome label such as "CO3". */
  predicate IsCourseLabel(s: string) {
    StartsWith(s, "CO") && IsDigits(s[2..])
  }

  /** `int(s[2:])` of a course label. */
  function LabelNumber(s: string): nat
    requires IsCourseLabel(s)
  {
    DigitsValue(s[2..])
  }

  /** The first cell of the row (any column) holding a course label. */
  function FirstLabel(cells: seq<Cell>): Option<nat>
    decreases |cells|
  {
    if cells == [] then None
    else if IsCourseLabel(Col(cells[0])) then Some(LabelNumber(Col(cells[0])))
    else FirstLabel(cells[1..])
  }

  method FindLabel(row: Row) returns (ref: Option<nat>)
    ensures ref == FirstLabel(row)
  {
    ref := None;
    var k := 0;
    while k < |row|
      invariant k <= |row|
      invariant FirstLabel(row) == FirstLabel(row[k..])
    {
      assert row[k..][1..] == row[k + 1..];
      var c := Col(row[k]);
      if IsCourseLabel(c) {
        ref := Some(LabelNumber(c));
        return;
      }
      k := k + 1;
    }
  }

  /** `any(pat in str(c) for c in row if c)`; the test `pat in str(row)` on
      the printed list is the same test for the patterns used here, since
      none of them can straddle two cells or match the list punctuation. */
  predicate AnyCellContains(row: Row, pat: string) {
    exists k | 0 <= k < |row| :: row[k].Some? && Contains(row[k].value, pat)
  }

  // ---------------------------------------------------------------------------
  // Roman unit numerals
  // ---------------------------------------------------------------------------

  /** roman_to_int. */
  function RomanToInt(s: string): (r: Option<nat>)
    ensures r.Some? ==> 1 <= r.value <= 6
  {
    if s == "I" then Some(1)
    else if s == "II" then Some(2)
    else if s == "III" then Some(3)
    else if s == "IV" then Some(4)
    else if s == "V" then Some(5)
    else if s == "VI" then Some(6)
    else None
  }

  /** The numeral written for unit `n`. */
  function Numeral(n: nat): string
    requires 1 <= n <= 6
  {
    ["I", "II", "III", "IV", "V", "VI"][n - 1]
  }

  /** The numerals are exactly the six unit numbers. */
  lemma {:induction false} NumeralRoundTrip(n: nat, s: string)
    requires 1 <= n <= 6
    ensures RomanToInt(Numeral(n)) == Some(n)
    ensures RomanToInt(s) == Some(n) <==> s == Numeral(n)
  {
  }

  // ---------------------------------------------------------------------------
  // Scanner state
  // ---------------------------------------------------------------------------

  /** The `state` string. */
  datatype Phase = Objectives | Units | Outcomes | ResourceLists | Done

  /** The order in which the phases are visited. */
  function Rank(p: Phase): nat {
    match p
    case Objectives => 0
    case Units => 1
    case Outcomes => 2
    case ResourceLists => 3
    case Done => 4
  }

  /** `current_resource_type`. */
  datatype Category = TextBooks | ReferenceBooks | WebResources

  /** A unit dict before its topics are cut. */
  datatype Unit = Unit(number: nat, name: string, rawContent: string)

  /** The resources dict of three lists. */
  datatype Resources = Resources(textBooks: seq<string>, referenceBooks: seq<string>, webResources: seq<string>)

  function Items(res: Resources, cat: Category): seq<string> {
    match cat
    case TextBooks => res.textBooks
    case ReferenceBooks => res.referenceBooks
    case WebResources => res.webResources
  }

  /** `resources[cat].append(text)`. */
  function Add(res: Resources, cat: Category, text: string): (r: Resources)
    ensures Items(r, cat) == Items(res, cat) + [text]
    ensures forall c :: c != cat ==> Items(r, c) == Items(res, c)
  {
    match cat
    case TextBooks => res.(textBooks := res.textBooks + [text])
    case ReferenceBooks => res.(referenceBooks := res.referenceBooks + [text])
    case WebResources => res.(webResources := res.webResources + [text])
  }

  datatype ScanState = ScanState(
    phase: Phase,
    objectives: map<nat, string>,
    current: Option<Unit>,
    units: seq<Unit>,
    outcomes: map<nat, string>,
    resources: Resources,
    category: Option<Category>)

  const Start := ScanState(Objectives, map[], None, [], map[], Resources([], [], []), None)

  // ---------------------------------------------------------------------------
  // One row
  // ---------------------------------------------------------------------------

  /** A row "CO<n> | ... | objective" records the short name of its first
      long cell (over 20 characters); a row with "Unit"/"UNIT" in col0 and
      "Details" in col1 or in any cell starts the units. */
  function ObjectivesRow(st: ScanState, row: Row): (r: ScanState)
    requires |row| >= 2
    ensures r.phase == st.phase || r.phase == Units
    ensures r.units == st.units && r.current == st.current && r.resources == st.resources
  {
    var col0, col1 := Col(row[0]), Col(row[1]);
    if IsCourseLabel(col0) then
      var text := LongCell(row[1..], 20).GetOr("");
      if text != "" then st.(objectives := st.objectives[LabelNumber(col0) := UnitName(text)]) else st
    else if (Contains(col0, "Unit") || Contains(col0, "UNIT"))
            && (Contains(col1, "Details") || AnyCellContains(row, "Details")) then
      st.(phase := Units)
    else st
  }

  /** The row that ends the units: "Total" in col1 or "Course Outcomes" in
      col0. */
  predicate ClosesUnits(row: Row)
    requires |row| >= 2
  {
    Contains(Col(row[1]), "Total") || Contains(Col(row[0]), "Course Outcomes")
  }

  /** The unit `current` with `more` appended to its raw content. */
  function Continue(u: Unit, more: Option<string>): Unit {
    match more
    case None => u
    case Some(t) => u.(rawContent := u.rawContent + " " + t)
  }

  /** The name of a new unit: the short objective name of the first course
      label in the row, when that objective is known, else "Unit <numeral>". */
  function NameFor(row: Row, objectives: map<nat, string>, col0: string): string {
    var default := "Unit " + col0;
    match FirstLabel(row)
    case None => default
    case Some(n) => if n in objectives then objectives[n] else default
  }

  /** A numeral row closes the open unit and opens the next; a row with an
      empty col0 continues the open unit; the closing row closes the open unit
      and moves on to the outcomes. */
  function UnitsRow(st: ScanState, row: Row): (r: ScanState)
    requires |row| >= 2
    ensures r.phase == st.phase || r.phase == Outcomes
    ensures r.resources == st.resources
  {
    var col0 := Col(row[0]);
    var closed := if st.current.Some? then st.units + [st.current.value] else st.units;
    match RomanToInt(col0)
    case Some(n) =>
      var raw := LongCell(row[1..], 20).GetOr("");
      st.(units := closed, current := Some(Unit(n, NameFor(row, st.objectives, col0), raw)))
    case None =>
      if col0 == "" && st.current.Some? then
        st.(current := Some(Continue(st.current.value, LongCell(row[1..], 10))))
      else if ClosesUnits(row) then
        st.(units := closed, current := None, phase := Outcomes)
      else st
  }

  /** A row "CO<n> | ... | outcome" records its first long cell; "Text Books"
      in col0 or anywhere in the row starts the resources. */
  function OutcomesRow(st: ScanState, row: Row): (r: ScanState)
    requires |row| >= 2
    ensures r.phase == st.phase || r.phase == ResourceLists
    ensures r.units == st.units && r.current == st.current && r.resources == st.resources
  {
    var col0 := Col(row[0]);
    if IsCourseLabel(col0) then
      var text := LongCell(row[1..], 20).GetOr("");
      if text != "" then st.(outcomes := st.outcomes[LabelNumber(col0) := text]) else st
    else if Contains(col0, "Text Books") || AnyCellContains(row, "Text Books") then
      st.(phase := ResourceLists, category := Some(TextBooks))
    else st
  }

  /** A numbered resource: col0 is all digits or ends with '.'. */
  predicate IsEntryLabel(col0: string) {
    col0 != "" && (IsDigits(col0) || EndsWith(col0, "."))
  }

  /** Header rows switch the list (or stop the scan); a numbered row adds its
      first long cell (over 10 characters) to the current list. */
  function ResourcesRow(st: ScanState, row: Row): (r: ScanState)
    requires |row| >= 2
    ensures r.phase == st.phase || r.phase == Done
    ensures r.units == st.units && r.current == st.current
  {
    var col0 := Col(row[0]);
    if Contains(col0, "References Books") || Contains(col0, "Reference Books") then
      st.(category := Some(ReferenceBooks))
    else if Contains(col0, "Web Resources") then
      st.(category := Some(WebResources))
    else if Contains(col0, "Methods of Evaluation") || Contains(col0, "Methods of Assessment") then
      st.(phase := Done)
    else if IsEntryLabel(col0) then
      var text := LongCell(row[1..], 10).GetOr("");
      if text != "" && st.category.Some? then
        st.(resources := Add(st.resources, st.category.value, text))
      else st
    else st
  }

  /** One row of the scan. A row with fewer than two cells changes nothing,
      nor does any row once the scan is done, and the phase only moves one
      step forward at a time. */
  function Next(st: ScanState, row: Row): (r: ScanState)
    ensures |row| < 2 ==> r == st
    ensures st.phase == Done ==> r == st
    ensures Rank(st.phase) <= Rank(r.phase) <= Rank(st.phase) + 1
  {
    if |row| < 2 then st
    else
      match st.phase
      case Objectives => ObjectivesRow(st, row)
      case Units => UnitsRow(st, row)
      case Outcomes => OutcomesRow(st, row)
      case ResourceLists => ResourcesRow(st, row)
      case Done => st
  }

  /** The state after reading `rows` from `st`. */
  function Run(st: ScanState, rows: seq<Row>): ScanState
    decreases |rows|
  {
    if rows == [] then st else Next(Run(st, rows[..|rows| - 1]), rows[|rows| - 1])
  }

  // ---------------------------------------------------------------------------
  // The scan loop
  // ---------------------------------------------------------------------------

  /** The state after the rows, the units and their topics. */
  datatype FinalUnit = FinalUnit(number: nat, name: string, topics: seq<string>)

  datatype Syllabus = Syllabus(units: seq<FinalUnit>, outcomes: map<nat, string>, resources: Resources)

  /** A closed unit with its raw content cut into topics. */
  function Finish(u: Unit): FinalUnit {
    FinalUnit(u.number, u.name, ExpandAll(Segment(u.rawContent)))
  }

  /** What extract_syllabus returns for the rows. */
  function Extract(rows: seq<Row>): Syllabus {
    var st := Run(Start, rows);
    Syllabus(seq(|st.units|, i requires 0 <= i < |st.units| => Finish(st.units[i])), st.outcomes, st.resources)
  }

  /** extract_syllabus: the rows are read until the scan is done, and each
      closed unit gets its topics. A unit still open when the rows run out is
      dropped. */
  method ExtractSyllabus(rows: seq<Row>) returns (syllabus: Syllabus)
    ensures syllabus == Extract(rows)
    ensures |syllabus.units| == |Run(Start, rows).units|
  {
    var st := Start;
    var k := 0;
    while k < |rows|
      invariant k <= |rows|
      invariant st == Run(Start, rows[..k])
    {
      RunPrefix(Start, rows, k + 1);
      st := ReadRow(st, rows[k]);
      k := k + 1;
      if st.phase == Done {
        break;
      }
    }
    RunStops(rows, k, st);
    var finals := FinishUnits(st.units);
    syllabus := Syllabus(finals, st.outcomes, st.resources);
    ExtractOf(rows, st, finals);
  }

  /** Stopping at the end of the rows, or early once done, gives the state
      of the whole run. */
  lemma {:induction false} RunStops(rows: seq<Row>, k: nat, st: ScanState)
    requires k <= |rows| && st == Run(Start, rows[..k])
    requires k == |rows| || st.phase == Done
    ensures Run(Start, rows) == st
  {
    assert rows == rows[..k] + rows[k..];
    RunAppend(Start, rows[..k], rows[k..]);
    if k < |rows| {
      DoneIsFinal(st, rows[k..]);
    }
  }

  lemma {:induction false} ExtractOf(rows: seq<Row>, st: ScanState, finals: seq<FinalUnit>)
    requires Run(Start, rows) == st
    requires |finals| == |st.units| && forall i | 0 <= i < |st.units| :: finals[i] == Finish(st.units[i])
    ensures Extract(rows) == Syllabus(finals, st.outcomes, st.resources)
  {
  }

  /** The post-processing loop: topics of each closed unit, in unit order. */
  method FinishUnits(units: seq<Unit>) returns (finals: seq<FinalUnit>)
    ensures |finals| == |units|
    ensures forall i | 0 <= i < |units| :: finals[i] == Finish(units[i])
  {
    finals := [];
    var i := 0;
    while i < |units|
      invariant i <= |units|
      invariant |finals| == i
      invariant forall j | 0 <= j < i :: finals[j] == Finish(units[j])
    {
      var unit := units[i];
      var topics := SegmentTopics(unit.rawContent);
      topics := FlattenLists(topics);
      finals := finals + [FinalUnit(unit.number, unit.name, topics)];
      i := i + 1;
    }
  }

  /** One row, as the loop body reads it. */
  method ReadRow(st: ScanState, row: Row) returns (st': ScanState)
    ensures st' == Next(st, row)
  {
    if |row| < 2 {
      return st;
    }
    match st.phase {
      case Objectives => st' := ReadObjectivesRow(st, row);
      case Units => st' := ReadUnitsRow(st, row);
      case Outcomes => st' := ReadOutcomesRow(st, row);
      case ResourceLists => st' := ReadResourcesRow(st, row);
      case Done => st' := st;
    }
  }

  method ReadObjectivesRow(st: ScanState, row: Row) returns (st': ScanState)
    requires |row| >= 2
    ensures st' == ObjectivesRow(st, row)
  {
    st' := st;
    var col0, col1 := Col(row[0]), Col(row[1]);
    if IsCourseLabel(col0) {
      var found := FindLongCell(row, 20);
      var text := found.GetOr("");
      if text != "" {
        var shortName := ExtractUnitName(text);
        st' := st'.(objectives := st'.objectives[LabelNumber(col0) := shortName]);
      }
    } else if (Contains(col0, "Unit") || Contains(col0, "UNIT"))
              && (Contains(col1, "Details") || AnyCellContains(row, "Details")) {
      st' := st'.(phase := Units);
    }
  }

  method ReadUnitsRow(st: ScanState, row: Row) returns (st': ScanState)
    requires |row| >= 2
    ensures st' == UnitsRow(st, row)
  {
    st' := st;
    var col0 := Col(row[0]);
    var n := RomanToInt(col0);
    if n.Some? {
      if st'.current.Some? {
        st' := st'.(units := st'.units + [st'.current.value]);
      }
      var found := FindLongCell(row, 20);
      var ref := FindLabel(row);
      var name := "Unit " + col0;
      if ref.Some? && ref.value in st.objectives {
        name := st.objectives[ref.value];
      }
      st' := st'.(current := Some(Unit(n.value, name, found.GetOr(""))));
    } else if col0 == "" && st'.current.Some? {
      var found := FindLongCell(row, 10);
      if found.Some? {
        var u := st'.current.value;
        st' := st'.(current := Some(u.(rawContent := u.rawContent + " " + found.value)));
      }
    } else if ClosesUnits(row) {
      if st'.current.Some? {
        st' := st'.(units := st'.units + [st'.current.value], current := None);
      }
      st' := st'.(phase := Outcomes);
    }
  }

  method ReadOutcomesRow(st: ScanState, row: Row) returns (st': ScanState)
    requires |row| >= 2
    ensures st' == OutcomesRow(st, row)
  {
    st' := st;
    var col0 := Col(row[0]);
    if IsCourseLabel(col0) {
      var found := FindLongCell(row, 20);
      var text := found.GetOr("");
      if text != "" {
        st' := st'.(outcomes := st'.outcomes[LabelNumber(col0) := text]);
      }
    } else if Contains(col0, "Text Books") || AnyCellContains(row, "Text Books") {
      st' := st'.(phase := ResourceLists, category := Some(TextBooks));
    }
  }

  method ReadResourcesRow(st: ScanState, row: Row) returns (st': ScanState)
    requires |row| >= 2
    ensures st' == ResourcesRow(st, row)
  {
    st' := st;
    var col0 := Col(row[0]);
    if Contains(col0, "References Books") || Contains(col0, "Reference Books") {
      st' := st'.(category := Some(ReferenceBooks));
    } else if Contains(col0, "Web Resources") {
      st' := st'.(category := Some(WebResources));
    } else if Contains(col0, "Methods of Evaluation") || Contains(col0, "Methods of Assessment") {
      st' := st'.(phase := Done);
    } else if col0 != "" && (IsDigits(col0) || EndsWith(col0, ".")) {
      var found := FindLongCell(row, 10);
      var text := found.GetOr("");
      if text != "" && st'.category.Some? {
        st' := st'.(resources := Add(st'.resources, st'.category.value, text));
      }
    }
  }

  // ---------------------------------------------------------------------------
  // Properties of the scan
  // ---------------------------------------------------------------------------

  lemma {:induction false} RunAppend(st: ScanState, xs: seq<Row>, ys: seq<Row>)
    ensures Run(st, xs + ys) == Run(Run(st, xs), ys)
    decreases |ys|
  {
    if ys == [] {
      assert xs + ys == xs;
    } else {
      assert (xs + ys)[..|xs + ys| - 1] == xs + ys[..|ys| - 1];
      RunAppend(st, xs, ys[..|ys| - 1]);
    }
  }

  /** Once done, no row changes anything. */
  lemma {:induction false} DoneIsFinal(st: ScanState, rows: seq<Row>)
    requires st.phase == Done
    ensures Run(st, rows) == st
    decreases |rows|
  {
    if rows != [] {
      DoneIsFinal(st, rows[..|rows| - 1]);
    }
  }

  /** The phase never moves backward over any number of rows. */
  lemma {:induction false} PhaseForward(st: ScanState, rows: seq<Row>)
    ensures Rank(st.phase) <= Rank(Run(st, rows).phase) <= Rank(st.phase) + |rows|
    decreases |rows|
  {
    if rows != [] {
      PhaseForward(st, rows[..|rows| - 1]);
    }
  }

  /** Every unit, open or closed, is numbered 1 to 6. */
  predicate NumbersInRange(st: ScanState) {
    && (forall k | 0 <= k < |st.units| :: 1 <= st.units[k].number <= 6)
    && (st.current.Some? ==> 1 <= st.current.value.number <= 6)
  }

  /** The open unit keeps its number until it is closed, or a numeral row
      opens a new one with the numeral's number. */
  lemma {:induction false} CurrentNumber(st: ScanState, row: Row)
    ensures var r := Next(st, row);
            || r.current.None?
            || (st.current.Some? && r.current.value.number == st.current.value.number)
            || (|row| >= 2 && RomanToInt(Col(row[0])) == Some(r.current.value.number))
  {
    if |row| >= 2 && st.phase == Units {
      UnitsRowNumber(st, row);
    }
  }

  lemma {:induction false} UnitsRowNumber(st: ScanState, row: Row)
    requires |row| >= 2
    ensures var r := UnitsRow(st, row);
            || r.current.None?
            || (st.current.Some? && r.current.value.number == st.current.value.number)
            || RomanToInt(Col(row[0])) == Some(r.current.value.number)
  {
  }

  lemma {:induction false} NextKeepsNumbers(st: ScanState, row: Row)
    requires NumbersInRange(st)
    ensures NumbersInRange(Next(st, row))
  {
    UnitsGrowByClosing(st, row);
    CurrentNumber(st, row);
  }

  lemma {:induction false} RunKeepsNumbers(st: ScanState, rows: seq<Row>)
    requires NumbersInRange(st)
    ensures NumbersInRange(Run(st, rows))
    decreases |rows|
  {
    if rows != [] {
      RunKeepsNumbers(st, rows[..|rows| - 1]);
      NextKeepsNumbers(Run(st, rows[..|rows| - 1]), rows[|rows| - 1]);
    }
  }

  /** Every extracted unit is numbered 1 to 6. */
  lemma {:induction false} ExtractedNumbers(rows: seq<Row>)
    ensures forall k | 0 <= k < |Extract(rows).units| :: 1 <= Extract(rows).units[k].number <= 6
  {
    RunKeepsNumbers(Start, rows);
  }

  /** The numbers of the units, in order. */
  function NumbersOf(us: seq<Unit>): seq<nat>
    decreases |us|
  {
    if us == [] then [] else NumbersOf(us[..|us| - 1]) + [us[|us| - 1].number]
  }

  /** 1, 2, ..., n. */
  function OneTo(n: nat): seq<nat>
    decreases n
  {
    if n == 0 then [] else OneTo(n - 1) + [n]
  }

  /** The row opens unit `n`: at least two cells, col0 its numeral. */
  predicate OpensUnit(row: Row, n: nat) {
    1 <= n <= 6 && |row| >= 2 && Col(row[0]) == Numeral(n)
  }

  /** The row ends the units and cannot be read as a numeral row or as a
      continuation row. */
  predicate EndsUnits(row: Row) {
    |row| >= 2 && Col(row[0]) != "" && RomanToInt(Col(row[0])).None? && ClosesUnits(row)
  }

  /** Units are only ever added one at a time, in the units phase, and only the
      open unit, by a numeral row or the closing row. */
  lemma {:induction false} UnitsGrowByClosing(st: ScanState, row: Row)
    ensures var r := Next(st, row);
            || r.units == st.units
            || (&& st.phase == Units && st.current.Some? && |row| >= 2
                && r.units == st.units + [st.current.value]
                && (RomanToInt(Col(row[0])).Some? || ClosesUnits(row)))
  {
  }

  /** A numeral row in the units phase adds the open unit (if any) to the
      units and opens the unit of that numeral. */
  lemma {:induction false} NumeralRowStep(st: ScanState, row: Row, n: nat)
    requires st.phase == Units && |row| >= 2 && RomanToInt(Col(row[0])) == Some(n)
    ensures var r := Next(st, row);
            && r.phase == Units && r.current.Some? && r.current.value.number == n
            && r.units == (if st.current.Some? then st.units + [st.current.value] else st.units)
  {
  }

  /** The closing row adds the open unit (if any) to the units and moves on
      to the outcomes. */
  lemma {:induction false} ClosingRowStep(st: ScanState, row: Row)
    requires st.phase == Units && EndsUnits(row)
    ensures var r := Next(st, row);
            && r.phase == Outcomes && r.current.None?
            && r.units == (if st.current.Some? then st.units + [st.current.value] else st.units)
  {
  }

  lemma {:induction false} NumbersOfSnoc(us: seq<Unit>, u: Unit)
    ensures NumbersOf(us + [u]) == NumbersOf(us) + [u.number]
  {
    assert (us + [u])[..|us|] == us;
  }

  /** Starting the units with numeral rows I, II, ..., N in order and then
      the closing row adds exactly N units, numbered 1 to N in order. */
  lemma {:induction false} NumeralRowsGiveUnits(st: ScanState, rows: seq<Row>, closing: Row)
    requires st.phase == Units && st.current.None?
    requires |rows| <= 6 && forall k | 0 <= k < |rows| :: OpensUnit(rows[k], k + 1)
    requires EndsUnits(closing)
    ensures var r := Run(st, rows + [closing]);
            && r.phase == Outcomes && r.current.None?
            && NumbersOf(r.units) == NumbersOf(st.units) + OneTo(|rows|)
  {
    OpenUnits(st, rows, |rows|);
    assert rows[..|rows|] == rows;
    RunSnoc(st, rows, closing);
    var m := Run(st, rows);
    ClosingRowStep(m, closing);
    ClosedNumbers(st, m, Next(m, closing).units, |rows|);
  }

  /** Closing after n numeral rows adds the open unit n to units 1 to n - 1. */
  lemma {:induction false} ClosedNumbers(st: ScanState, m: ScanState, units: seq<Unit>, n: nat)
    requires OpenedUnits(st, m, n)
    requires units == (if m.current.Some? then m.units + [m.current.value] else m.units)
    ensures NumbersOf(units) == NumbersOf(st.units) + OneTo(n)
  {
    if n > 0 {
      NumbersOfSnoc(m.units, m.current.value);
    }
  }

  /** Reading one more row is one more step. */
  lemma {:induction false} RunSnoc(st: ScanState, rows: seq<Row>, row: Row)
    ensures Run(st, rows + [row]) == Next(Run(st, rows), row)
  {
    assert (rows + [row])[..|rows|] == rows;
  }

  /** After the first j numeral rows, unit j is open and units 1 to j - 1
      have been added, in order. */
  lemma {:induction false} OpenUnits(st: ScanState, rows: seq<Row>, j: nat)
    requires st.phase == Units && st.current.None?
    requires j <= |rows| <= 6 && NumeralRows(rows)
    ensures OpenedUnits(st, Run(st, rows[..j]), j)
    decreases j
  {
    if j == 0 {
      assert rows[..0] == [];
    } else {
      OpenUnits(st, rows, j - 1);
      NumeralRowAt(rows, j - 1);
      OpenRunStep(st, rows, j);
    }
  }

  /** Row `k` reads as the numeral k + 1, for every row. */
  predicate NumeralRows(rows: seq<Row>) {
    forall k | 0 <= k < |rows| :: OpensUnit(rows[k], k + 1)
  }

  lemma {:induction false} NumeralRowAt(rows: seq<Row>, k: nat)
    requires NumeralRows(rows) && k < |rows|
    ensures OpensUnit(rows[k], k + 1)
  {
  }

  /** The `j`-th numeral row, read after the first `j - 1`, opens unit `j`. */
  lemma {:induction false} OpenRunStep(st: ScanState, rows: seq<Row>, j: nat)
    requires 0 < j <= |rows| && OpensUnit(rows[j - 1], j)
    requires OpenedUnits(st, Run(st, rows[..j - 1]), j - 1)
    ensures OpenedUnits(st, Run(st, rows[..j]), j)
  {
    RunPrefix(st, rows, j);
    OpenNext(st, Run(st, rows[..j - 1]), rows[j - 1], j);
  }

  /** Reading the first `j` rows is reading the first `j - 1` and then row `j - 1`. */
  lemma {:induction false} RunPrefix(st: ScanState, rows: seq<Row>, j: nat)
    requires 0 < j <= |rows|
    ensures Run(st, rows[..j]) == Next(Run(st, rows[..j - 1]), rows[j - 1])
  {
    assert rows[..j][..j - 1] == rows[..j - 1];
  }

  /** The state after `j` numeral rows read from `st`. */
  predicate OpenedUnits(st: ScanState, m: ScanState, j: nat) {
    && m.phase == Units
    && (j == 0 ==> m.current.None? && m.units == st.units)
    && (j > 0 ==> m.current.Some? && m.current.value.number == j
                  && NumbersOf(m.units) == NumbersOf(st.units) + OneTo(j - 1))
  }

  lemma {:induction false} OpenNext(st: ScanState, prev: ScanState, row: Row, j: nat)
    requires j >= 1 && OpensUnit(row, j) && OpenedUnits(st, prev, j - 1)
    ensures OpenedUnits(st, Next(prev, row), j)
  {
    NumeralRoundTrip(j, Col(row[0]));
    NumeralRowStep(prev, row, j);
    if j > 1 {
      ClosedNext(NumbersOf(st.units), prev.units, prev.current.value, j - 1);
    } else {
      assert NumbersOf(st.units) + OneTo(0) == NumbersOf(st.units);
    }
  }

  /** Closing unit `k` after units numbered base + 1..k-1 gives base + 1..k. */
  lemma {:induction false} ClosedNext(base: seq<nat>, us: seq<Unit>, u: Unit, k: nat)
    requires k >= 1 && u.number == k && NumbersOf(us) == base + OneTo(k - 1)
    ensures NumbersOf(us + [u]) == base + OneTo(k)
  {
    NumbersOfSnoc(us, u);
    Reassociate(base, OneTo(k - 1), [k]);
  }

  /** A continuation row (empty col0 while a unit is open) appends a space and
      its first cell longer than 10 characters, cleaned, to the open unit's
      raw content; number, name and everything else stay; nothing is appended
      when no such cell exists. */
  lemma {:induction false} ContinuationRow(st: ScanState, row: Row)
    requires st.phase == Units && st.current.Some? && |row| >= 2 && Col(row[0]) == ""
    ensures var r := Next(st, row);
            var u, u' := st.current.value, r.current.value;
            && r.current.Some?
            && u'.number == u.number && u'.name == u.name
            && ((forall k | 1 <= k < |row| :: !IsLong(row[k], 10)) ==> u' == u)
            && (forall k | 1 <= k < |row| && IsLong(row[k], 10) && FirstLong(row, k) ::
                  u'.rawContent == u.rawContent + " " + CleanText(row[k].value))
            && r == st.(current := r.current)
  {
    assert RomanToInt("").None?;
    var i := FirstLongCell(row[1..], 10);
    assert Next(st, row) == st.(current := Some(Continue(st.current.value, LongCell(row[1..], 10))));
    forall k | 1 <= k < |row| && IsLong(row[k], 10) && FirstLong(row, k)
      ensures k - 1 == i
    {
      assert row[1..][k - 1] == row[k];
    }
    if i == |row[1..]| {
      forall k | 1 <= k < |row|
        ensures !IsLong(row[k], 10)
      {
        assert row[1..][k - 1] == row[k];
      }
    } else {
      assert row[1..][i] == row[i + 1];
    }
  }

  /** No cell between col0 and cell `k` is long. */
  predicate FirstLong(row: Row, k: nat) {
    forall j | 1 <= j < k && j < |row| :: !IsLong(row[j], 10)
  }

  /** Resources change only in the resources phase, by one entry appended to
      the current list and no other, for a numbered row with a long cell. */
  lemma {:induction false} ResourcesGrowInCurrentList(st: ScanState, row: Row)
    ensures var r := Next(st, row);
            || r.resources == st.resources
            || (&& st.phase == ResourceLists && |row| >= 2 && IsEntryLabel(Col(row[0]))
                && st.category.Some? && LongCell(row[1..], 10).Some?
                && r.resources == Add(st.resources, st.category.value, LongCell(row[1..], 10).value))
  {
    if |row| >= 2 && st.phase == ResourceLists {
      ResourcesRowGrows(st, row);
    }
  }

  lemma {:induction false} ResourcesRowGrows(st: ScanState, row: Row)
    requires |row| >= 2
    ensures var r := ResourcesRow(st, row);
            || r.resources == st.resources
            || (&& IsEntryLabel(Col(row[0])) && st.category.Some? && LongCell(row[1..], 10).Some?
                && r.resources == Add(st.resources, st.category.value, LongCell(row[1..], 10).value))
  {
  }

  /** In the resources phase a list is always selected: entering the phase
      selects the text books, and header rows only switch lists. */
  predicate ListSelected(st: ScanState) {
    st.phase == ResourceLists ==> st.category.Some?
  }

  lemma {:induction false} NextSelectsList(st: ScanState, row: Row)
    requires ListSelected(st)
    ensures ListSelected(Next(st, row))
    ensures var r := Next(st, row);
            st.phase != ResourceLists && r.phase == ResourceLists ==> st.phase == Outcomes && r.category == Some(TextBooks)
  {
  }

  /** In the resources phase a header row switches the current list, and
      the evaluation header ends the scan; each of these changes nothing
      else. */
  lemma {:induction false} ResourceHeaders(st: ScanState, row: Row)
    requires st.phase == ResourceLists && |row| >= 2
    ensures var col0, r := Col(row[0]), Next(st, row);
            && (Contains(col0, "References Books") || Contains(col0, "Reference Books") ==>
                  r == st.(category := Some(ReferenceBooks)))
            && (!Contains(col0, "References Books") && !Contains(col0, "Reference Books") && Contains(col0, "Web Resources") ==>
                  r == st.(category := Some(WebResources)))
            && (!Contains(col0, "References Books") && !Contains(col0, "Reference Books") && !Contains(col0, "Web Resources")
                && (Contains(col0, "Methods of Evaluation") || Contains(col0, "Methods of Assessment")) ==>
                  r == st.(phase := Done))
  {
    assert Next(st, row) == ResourcesRow(st, row);
  }

  lemma {:induction false} RunSelectsList(rows: seq<Row>)
    ensures ListSelected(Run(Start, rows))
    decreases |rows|
  {
    if rows != [] {
      RunSelectsList(rows[..|rows| - 1]);
      NextSelectsList(Run(Start, rows[..|rows| - 1]), rows[|rows| - 1]);
    }
  }
}

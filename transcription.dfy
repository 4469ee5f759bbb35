/** The transcription of a validated absentee list into the workbook
    (update_excel without loading and saving): status marks and fills on
    the roster grid, per-reason counters, the header date and weather
    mark, the absence log, the headcount and the manager line. */
module Transcription {
  import opened Cells
  import opened Layout
  import opened Worksheets
  import opened Roster
  import opened Validation
  import opened Tallies

  /** The three renderings of the current date: the sheet header with its
      weekday, the log sheet's title date and the log rows' month/day. */
  datatype Dates = Dates(header: string, logTitle: string, logDay: string)

  /** int(D66 or 0) - len(absentees); None stands for the ValueError of an
      expected-headcount text that is not an integer. */
  function Headcount(expected: Value, absentCount: nat): (r: Option<int>)
    ensures r.Some? <==> IntOf(expected).Some?
    ensures r.Some? ==> r.value + absentCount == IntOf(expected).value
  {
    match IntOf(expected)
    case None => None
    case Some(e) => Some(e - absentCount)
  }

  function ManagerLine(manager: string): string {
    ManagerPrefix + manager
  }

  /** The six values of log row k: date, serial number k + 1, the
      organisation code, the identifier, the reason and the location. */
  function LogRow(a: Absentee, k: nat, dates: Dates): seq<Value> {
    [Text(dates.logDay), Int(k + 1), Text(OrgCode), Text(a.id), Text(a.reason), Text(Location)]
  }

  /** Column j of the k-th (0-based) absentee's log row. */
  function LogCell(k: nat, j: int): Coord {
    (LogFirstRow + k, j)
  }

  predicate InLogRows(c: Coord, n: nat) {
    LogFirstRow <= c.0 < LogFirstRow + n && 1 <= c.1 <= LogColumns
  }

  /** The weather cell the form's weather option selects, if any. */
  predicate WeatherMarked(weather: Option<string>, c: Coord) {
    weather.Some? && weather.value in WeatherCells && c == WeatherCells[weather.value]
  }

  /** The fixed cells of the attendance sheet the transcription may write. */
  predicate IsFixedMainCell(c: Coord) {
    || c == HeaderDateCell
    || c in WeatherCells.Values
    || c in CounterCells
    || c == HeadcountCell
    || c == ManagerCell
  }

  // ---------------------------------------------------------------------
  // The grid pass
  // ---------------------------------------------------------------------

  /** The status cells after the first n slots of the scan: a scanned
      slot's status is StatusAfter, every other cell is as it was. */
  ghost predicate ValuesMarked(values: map<Coord, Value>, v0: map<Coord, Value>, ids: seq<string>,
                               rmap: map<string, string>, n: nat)
    requires |ids| == SlotCount
  {
    && (forall s :: 0 <= s < SlotCount ==>
          ValueAt(values, StatusCell(s)) == if s < n then StatusAfter(ids[s], rmap, ValueAt(v0, StatusCell(s))) else ValueAt(v0, StatusCell(s)))
    && (forall c :: !IsStatusCell(c) ==> ValueAt(values, c) == ValueAt(v0, c))
  }

  /** The fills after the first n slots of the scan. */
  ghost predicate FillsMarked(fills: map<Coord, string>, f0: map<Coord, string>, ids: seq<string>,
                              rmap: map<string, string>, n: nat)
    requires |ids| == SlotCount
  {
    && (forall s :: 0 <= s < SlotCount ==>
          FillAt(fills, SlotAt(s)) == if s < n then FillAfter(ids[s], rmap, FillAt(f0, SlotAt(s))) else FillAt(f0, SlotAt(s)))
    && (forall c :: !IsIdCell(c) ==> FillAt(fills, c) == FillAt(f0, c))
  }

  /** The counters after the first n slots: one per recognised reason. */
  ghost predicate CountedUpTo(counts: map<string, int>, ids: seq<string>, rmap: map<string, string>, n: nat)
    requires n <= |ids|
  {
    && (forall r :: r in counts <==> r in ReasonOptions)
    && (forall r :: r in counts ==> counts[r] == Tally(ids, rmap, r, n))
  }

  /** The state of the grid pass after the first n slots. */
  ghost predicate GridPassUpTo(values: map<Coord, Value>, fills: map<Coord, string>, counts: map<string, int>,
                               v0: map<Coord, Value>, f0: map<Coord, string>, ids: seq<string>,
                               rmap: map<string, string>, n: nat)
    requires |ids| == SlotCount && n <= SlotCount
  {
    ValuesMarked(values, v0, ids, rmap, n) && FillsMarked(fills, f0, ids, rmap, n) && CountedUpTo(counts, ids, rmap, n)
  }

  /** Scanning slot s writes its status cell, unless the slot is empty,
      and no other cell. */
  lemma ValuesMarkedStep(values: map<Coord, Value>, v0: map<Coord, Value>, ids: seq<string>,
                         rmap: map<string, string>, s: nat)
    requires |ids| == SlotCount && s < SlotCount
    requires ValuesMarked(values, v0, ids, rmap, s)
    ensures ids[s] == "" ==> ValuesMarked(values, v0, ids, rmap, s + 1)
    ensures ids[s] != "" ==>
              ValuesMarked(values[StatusCell(s) := StatusAfter(ids[s], rmap, ValueAt(v0, StatusCell(s)))], v0, ids, rmap, s + 1)
  {
    forall t | 0 <= t < SlotCount && t != s ensures StatusCell(t) != StatusCell(s) {
      SlotsDistinct(t, s);
    }
  }

  /** Scanning slot s fills its identifier cell when the slot is absent,
      and no other cell. */
  lemma FillsMarkedStep(fills: map<Coord, string>, f0: map<Coord, string>, ids: seq<string>,
                        rmap: map<string, string>, s: nat)
    requires |ids| == SlotCount && s < SlotCount
    requires FillsMarked(fills, f0, ids, rmap, s)
    ensures !AbsentAt(ids, rmap, s) ==> FillsMarked(fills, f0, ids, rmap, s + 1)
    ensures AbsentAt(ids, rmap, s) ==> FillsMarked(fills[SlotAt(s) := FillColour(rmap[ids[s]])], f0, ids, rmap, s + 1)
  {
    forall t | 0 <= t < SlotCount && t != s ensures SlotAt(t) != SlotAt(s) {
      SlotsDistinct(t, s);
    }
  }

  /** The grid pass of update_excel: every slot with a non-empty
      identifier gets "X" beside it if the reason map lists it, else "V";
      an absent slot's identifier cell is filled with its reason's colour;
      the counter of a recognised reason goes up by one per absent slot. */
  method MarkRoster(main: Worksheet, rmap: map<string, string>) returns (counts: map<string, int>)
    modifies main
    ensures ValuesMarked(main.values, old(main.values), SlotIds(old(main.values)), rmap, SlotCount)
    ensures FillsMarked(main.fills, old(main.fills), SlotIds(old(main.values)), rmap, SlotCount)
    ensures CountedUpTo(counts, SlotIds(old(main.values)), rmap, SlotCount)
  {
    ghost var v0, f0 := main.values, main.fills;
    ghost var ids := SlotIds(v0);
    counts := map r | r in ReasonOptions :: 0;
    ghost var s: nat := 0;  // the slot number of (row, IdColumns[k])
    var row := FirstRow;
    while row <= LastRow
      invariant FirstRow <= row <= LastRow + 1
      invariant s == (row - FirstRow) * SlotsPerRow
      invariant GridPassUpTo(main.values, main.fills, counts, v0, f0, ids, rmap, s)
    {
      var k := 0;
      while k < |IdColumns|
        invariant 0 <= k <= |IdColumns|
        invariant s == (row - FirstRow) * SlotsPerRow + k
        invariant GridPassUpTo(main.values, main.fills, counts, v0, f0, ids, rmap, s)
      {
        SlotOfRowColumn(row, k);
        var col := IdColumns[k];
        counts := MarkSlot(main, rmap, counts, row, col, v0, f0, ids, s);
        k := k + 1;
        s := s + 1;
      }
      row := row + 1;
    }
  }

  /** Counting slot s: the counter of its reason goes up by one when the
      slot is absent and the reason is recognised. */
  lemma CountedStep(counts: map<string, int>, ids: seq<string>, rmap: map<string, string>, s: nat)
    requires s < |ids| && CountedUpTo(counts, ids, rmap, s)
    ensures !AbsentAt(ids, rmap, s) || rmap[ids[s]] !in counts ==> CountedUpTo(counts, ids, rmap, s + 1)
    ensures AbsentAt(ids, rmap, s) && rmap[ids[s]] in counts ==>
              CountedUpTo(counts[rmap[ids[s]] := counts[rmap[ids[s]]] + 1], ids, rmap, s + 1)
  {
  }

  /** Marking never changes an identifier cell, so the grid pass reads
      each slot's identifier as it was before the pass. */
  lemma SlotIdKept(values: map<Coord, Value>, v0: map<Coord, Value>, rmap: map<string, string>, s: nat)
    requires s < SlotCount && ValuesMarked(values, v0, SlotIds(v0), rmap, s)
    ensures Normalize(ValueAt(values, SlotAt(s))) == SlotIds(v0)[s]
  {
    IdCellsAreNotStatusCells(SlotAt(s));
  }

  /** One step of the grid pass: slot s, whose identifier is at (row, col)
      and whose status cell is at (row, col + 1). */
  method MarkSlot(main: Worksheet, rmap: map<string, string>, counts: map<string, int>, row: int, col: int,
                  ghost v0: map<Coord, Value>, ghost f0: map<Coord, string>, ghost ids: seq<string>, ghost s: nat)
    returns (counts': map<string, int>)
    requires ids == SlotIds(v0) && s < SlotCount && (row, col) == SlotAt(s)
    requires GridPassUpTo(main.values, main.fills, counts, v0, f0, ids, rmap, s)
    modifies main
    ensures GridPassUpTo(main.values, main.fills, counts', v0, f0, ids, rmap, s + 1)
  {
    assert (row, col + 1) == StatusCell(s);
    ValuesMarkedStep(main.values, v0, ids, rmap, s);
    FillsMarkedStep(main.fills, f0, ids, rmap, s);
    CountedStep(counts, ids, rmap, s);
    counts' := counts;
    var empId := Normalize(main.Get((row, col)));
    SlotIdKept(main.values, v0, rmap, s);
    if |empId| < 1 {
      return;
    }
    if empId in rmap {
      var reason := rmap[empId];
      main.SetValue((row, col + 1), Text(AbsentMark));
      main.SetFill((row, col), FillColour(reason));
      if reason in counts' {
        counts' := counts'[reason := counts'[reason] + 1];
      }
    } else {
      main.SetValue((row, col + 1), Text(PresentMark));
    }
  }

  // ---------------------------------------------------------------------
  // The header row
  // ---------------------------------------------------------------------

  /** The attendance sheet's values with the date written to C4 and the
      weather option's cell, if the option is one of the three, marked. */
  function WithHeader(values: map<Coord, Value>, weather: Option<string>, dates: Dates): map<Coord, Value> {
    var v := values[HeaderDateCell := Text(dates.header)];
    if weather.Some? && weather.value in WeatherCells then v[WeatherCells[weather.value] := Text(WeatherMark)] else v
  }

  method WriteHeader(main: Worksheet, weather: Option<string>, dates: Dates)
    modifies main
    ensures main.values == WithHeader(old(main.values), weather, dates) && main.fills == old(main.fills)
  {
    main.SetValue(HeaderDateCell, Text(dates.header));
    if weather.Some? && weather.value in WeatherCells {
      main.SetValue(WeatherCells[weather.value], Text(WeatherMark));
    }
  }

  /** C4 holds the date, the selected weather cell holds "X", and no other
      cell changes. */
  lemma HeaderWritten(values: map<Coord, Value>, weather: Option<string>, dates: Dates)
    ensures ValueAt(WithHeader(values, weather, dates), HeaderDateCell) == Text(dates.header)
    ensures forall c :: c in WeatherCells.Values ==>
              ValueAt(WithHeader(values, weather, dates), c) == if WeatherMarked(weather, c) then Text(WeatherMark) else ValueAt(values, c)
    ensures forall c :: c != HeaderDateCell && c !in WeatherCells.Values ==> ValueAt(WithHeader(values, weather, dates), c) == ValueAt(values, c)
  {
  }

  /** The three weather options mark three different cells, so at most one
      of P4, S4 and V4 is marked. */
  lemma WeatherCellsOneToOne()
    ensures forall w, w' :: w in WeatherCells && w' in WeatherCells && w != w' ==> WeatherCells[w] != WeatherCells[w']
    ensures forall w :: w in WeatherCells ==> WeatherCells[w] != HeaderDateCell
  {
  }

  /** With an option outside the three, no weather cell is marked; with one
      of them, exactly that option's cell is. */
  lemma WeatherMarkedUnique(weather: Option<string>, c: Coord, c': Coord)
    requires WeatherMarked(weather, c) && WeatherMarked(weather, c')
    ensures c == c'
  {
  }

  // ---------------------------------------------------------------------
  // The counters
  // ---------------------------------------------------------------------

  /** The attendance sheet's values with the twelve counters written,
      in the order the source writes them. */
  function WithCounters(values: map<Coord, Value>, counts: map<string, int>): map<Coord, Value>
    requires forall r :: r in ReasonOptions ==> r in counts
  {
    values[(62, 3) := Int(counts[ReasonOptions[2]])]
          [(63, 3) := Int(counts[ReasonOptions[5]])]
          [(64, 3) := Int(counts[ReasonOptions[8]])]
          [(62, 11) := Int(counts[ReasonOptions[0]])]
          [(63, 11) := Int(counts[ReasonOptions[1]])]
          [(64, 11) := Int(counts[ReasonOptions[9]])]
          [(62, 20) := Int(counts[ReasonOptions[3]])]
          [(63, 20) := Int(counts[ReasonOptions[6]])]
          [(64, 20) := Int(counts[ReasonOptions[10]])]
          [(62, 27) := Int(counts[ReasonOptions[4]])]
          [(63, 27) := Int(counts[ReasonOptions[7]])]
          [(64, 27) := Int(counts[ReasonOptions[11]])]
  }
  /** Each reason's counter lands in that reason's counter cell. */
  lemma CounterWritten(values: map<Coord, Value>, counts: map<string, int>, i: nat)
    requires forall r :: r in ReasonOptions ==> r in counts
    requires i < |CounterCells|
    ensures ValueAt(WithCounters(values, counts), CounterCells[i]) == Int(counts[ReasonOptions[i]])
  {
    if i < 3 {
    } else if i < 6 {
    } else if i < 9 {
    } else {
    }
  }
  /** Writing the counters changes no cell outside the counter cells. */
  lemma CountersFrame(values: map<Coord, Value>, counts: map<string, int>)
    requires forall r :: r in ReasonOptions ==> r in counts
    ensures forall c :: c !in CounterCells ==> ValueAt(WithCounters(values, counts), c) == ValueAt(values, c)
  {
  }
  /** The twelve counter cells, each written with its reason's counter. */
  method WriteCounters(main: Worksheet, counts: map<string, int>)
    requires forall r :: r in ReasonOptions ==> r in counts
    modifies main
    ensures main.values == WithCounters(old(main.values), counts)
    ensures main.fills == old(main.fills)
  {
    main.SetValue((62, 3), Int(counts[ReasonOptions[2]]));    // C62: 體檢
    main.SetValue((63, 3), Int(counts[ReasonOptions[5]]));    // C63: 工傷
    main.SetValue((64, 3), Int(counts[ReasonOptions[8]]));    // C64: 遣返
    main.SetValue((62, 11), Int(counts[ReasonOptions[0]]));   // K62: 休假
    main.SetValue((63, 11), Int(counts[ReasonOptions[1]]));   // K63: 曠職
    main.SetValue((64, 11), Int(counts[ReasonOptions[9]]));   // K64: 提前解聘
    main.SetValue((62, 20), Int(counts[ReasonOptions[3]]));   // T62: 年休返泰
    main.SetValue((63, 20), Int(counts[ReasonOptions[6]]));   // T63: 病假
    main.SetValue((64, 20), Int(counts[ReasonOptions[10]]));  // T64: 逃跑
    main.SetValue((62, 27), Int(counts[ReasonOptions[4]]));   // AA62: 事假返鄉
    main.SetValue((63, 27), Int(counts[ReasonOptions[7]]));   // AA63: 待返
    main.SetValue((64, 27), Int(counts[ReasonOptions[11]]));  // AA64: 調派
  }

  // ---------------------------------------------------------------------
  // The absence log
  // ---------------------------------------------------------------------

  /** The log sheet's values with absentee k written to row 5 + k. */
  function WithLogRow(values: map<Coord, Value>, a: Absentee, k: nat, dates: Dates): map<Coord, Value> {
    var row := LogRow(a, k, dates);
    values[LogCell(k, 1) := row[0]][LogCell(k, 2) := row[1]][LogCell(k, 3) := row[2]]
          [LogCell(k, 4) := row[3]][LogCell(k, 5) := row[4]][LogCell(k, 6) := row[5]]
  }

  /** Rows 5 .. 5 + n - 1 hold the first n absentees' log rows. */
  ghost predicate LogRowsWritten(values: map<Coord, Value>, absentees: seq<Absentee>, dates: Dates, n: nat)
    requires n <= |absentees|
  {
    forall k, j :: 0 <= k < n && 1 <= j <= LogColumns ==>
      ValueAt(values, LogCell(k, j)) == LogRow(absentees[k], k, dates)[j - 1]
  }

  /** Every cell outside I2 and the first n log rows is as in v0. */
  ghost predicate LogElsewhereUnchanged(values: map<Coord, Value>, v0: map<Coord, Value>, n: nat) {
    forall c :: c != LogDateCell && !InLogRows(c, n) ==> ValueAt(values, c) == ValueAt(v0, c)
  }

  /** The log sheet after the title and the first n absentees. */
  ghost predicate LogRowsUpTo(values: map<Coord, Value>, v0: map<Coord, Value>, absentees: seq<Absentee>,
                              dates: Dates, n: nat)
    requires n <= |absentees|
  {
    && ValueAt(values, LogDateCell) == Text(dates.logTitle)
    && LogRowsWritten(values, absentees, dates, n)
    && LogElsewhereUnchanged(values, v0, n)
  }

  /** Writing absentee n's row adds that row to the written rows. */
  lemma LogRowsWrittenStep(values: map<Coord, Value>, absentees: seq<Absentee>, dates: Dates, n: nat)
    requires n < |absentees|
    requires LogRowsWritten(values, absentees, dates, n)
    ensures LogRowsWritten(WithLogRow(values, absentees[n], n, dates), absentees, dates, n + 1)
  {
  }

  /** Writing absentee n's row changes nothing outside that row. */
  lemma LogElsewhereStep(values: map<Coord, Value>, v0: map<Coord, Value>, a: Absentee, dates: Dates, n: nat)
    requires LogElsewhereUnchanged(values, v0, n)
    ensures LogElsewhereUnchanged(WithLogRow(values, a, n, dates), v0, n + 1)
  {
  }

  /** Writing absentee n's row extends the log by that row. */
  lemma LogRowsStep(values: map<Coord, Value>, v0: map<Coord, Value>, absentees: seq<Absentee>, dates: Dates, n: nat)
    requires n < |absentees|
    requires LogRowsUpTo(values, v0, absentees, dates, n)
    ensures LogRowsUpTo(WithLogRow(values, absentees[n], n, dates), v0, absentees, dates, n + 1)
  {
    LogRowsWrittenStep(values, absentees, dates, n);
    LogElsewhereStep(values, v0, absentees[n], dates, n);
  }

  /** One row of the absence log: date, serial number, organisation code,
      identifier, reason and location in columns 1 to 6 of `row`. */
  method WriteLogRow(log: Worksheet, row: int, serial: int, a: Absentee, dates: Dates)
    requires row == LogFirstRow + serial - 1 && serial >= 1
    modifies log
    ensures log.values == WithLogRow(old(log.values), a, serial - 1, dates) && log.fills == old(log.fills)
  {
    log.SetValue((row, 1), Text(dates.logDay));
    log.SetValue((row, 2), Int(serial));
    log.SetValue((row, 3), Text(OrgCode));
    log.SetValue((row, 4), Text(a.id));
    log.SetValue((row, 5), Text(a.reason));
    log.SetValue((row, 6), Text(Location));
  }

  /** The absence log: the title date in I2, then one row per absentee
      from row 5 on, numbered from 1. */
  method WriteLog(log: Worksheet, absentees: seq<Absentee>, dates: Dates)
    modifies log
    ensures LogRowsUpTo(log.values, old(log.values), absentees, dates, |absentees|)
    ensures log.fills == old(log.fills)
  {
    log.SetValue(LogDateCell, Text(dates.logTitle));
    var insertRow := LogFirstRow;
    var serial := 1;
    var i := 0;
    while i < |absentees|
      invariant 0 <= i <= |absentees|
      invariant insertRow == LogFirstRow + i && serial == i + 1
      invariant log.fills == old(log.fills)
      invariant LogRowsUpTo(log.values, old(log.values), absentees, dates, i)
    {
      ghost var before := log.values;
      WriteLogRow(log, insertRow, serial, absentees[i], dates);
      assert log.values == WithLogRow(before, absentees[i], i, dates);
      LogRowsStep(before, old(log.values), absentees, dates, i);
      insertRow := insertRow + 1;
      serial := serial + 1;
      i := i + 1;
    }
  }

  // ---------------------------------------------------------------------
  // The whole transcription
  // ---------------------------------------------------------------------

  /** The roster grid after the transcription: each slot's status cell
      and identifier fill as the grid pass leaves them. */
  ghost predicate RosterTranscribed(v0: map<Coord, Value>, f0: map<Coord, string>,
                                    values: map<Coord, Value>, fills: map<Coord, string>, rmap: map<string, string>)
  {
    && (forall s :: 0 <= s < SlotCount ==>
          ValueAt(values, StatusCell(s)) == StatusAfter(SlotId(v0, s), rmap, ValueAt(v0, StatusCell(s))))
    && (forall s :: 0 <= s < SlotCount ==>
          FillAt(fills, SlotAt(s)) == FillAfter(SlotId(v0, s), rmap, FillAt(f0, SlotAt(s))))
    && (forall c :: !IsIdCell(c) ==> FillAt(fills, c) == FillAt(f0, c))
  }

  /** Each counter cell holds the number of absent slots with its reason. */
  ghost predicate CountersTranscribed(v0: map<Coord, Value>, values: map<Coord, Value>, rmap: map<string, string>) {
    forall i :: 0 <= i < |CounterCells| ==>
      ValueAt(values, CounterCells[i]) == Int(Tally(SlotIds(v0), rmap, ReasonOptions[i], SlotCount))
  }

  /** C4 holds the date and only the selected weather cell is marked. */
  ghost predicate HeaderTranscribed(v0: map<Coord, Value>, values: map<Coord, Value>, weather: Option<string>, dates: Dates) {
    && ValueAt(values, HeaderDateCell) == Text(dates.header)
    && (forall c :: c in WeatherCells.Values ==>
          ValueAt(values, c) == if WeatherMarked(weather, c) then Text(WeatherMark) else ValueAt(v0, c))
  }

  /** L66 holds D66 minus the number of absentees and S69 the manager line
      when there is a manager, both only when D66 could be read. */
  ghost predicate FooterTranscribed(v0: map<Coord, Value>, values: map<Coord, Value>, absentCount: nat,
                                    manager: string, ok: bool)
  {
    var headcount := Headcount(ValueAt(v0, ExpectedHeadcountCell), absentCount);
    && ok == headcount.Some?
    && ValueAt(values, HeadcountCell) == (if ok then Int(headcount.value) else ValueAt(v0, HeadcountCell))
    && ValueAt(values, ManagerCell) == (if ok && manager != "" then Text(ManagerLine(manager)) else ValueAt(v0, ManagerCell))
  }

  /** What the transcription leaves on the attendance sheet (values and
      fills), relative to the sheet it started from (v0 and f0). `ok` is
      false when the expected headcount could not be read, in which case
      L66 and S69 are not reached. Every cell that is neither a status
      cell nor one of the fixed cells keeps its value. */
  ghost predicate MainTranscribed(v0: map<Coord, Value>, f0: map<Coord, string>,
                                  values: map<Coord, Value>, fills: map<Coord, string>,
                                  absentees: seq<Absentee>, weather: Option<string>, manager: string,
                                  dates: Dates, ok: bool)
  {
    var rmap := ReasonMap(absentees);
    && RosterTranscribed(v0, f0, values, fills, rmap)
    && CountersTranscribed(v0, values, rmap)
    && HeaderTranscribed(v0, values, weather, dates)
    && FooterTranscribed(v0, values, |absentees|, manager, ok)
    && (forall c :: !IsStatusCell(c) && !IsFixedMainCell(c) ==> ValueAt(values, c) == ValueAt(v0, c))
  }

  /** A slot without an identifier is left untouched: its identifier
      cell keeps its value and fill, and its status cell its value. */
  lemma EmptySlotUntouched(v0: map<Coord, Value>, f0: map<Coord, string>,
                           values: map<Coord, Value>, fills: map<Coord, string>,
                           absentees: seq<Absentee>, weather: Option<string>, manager: string,
                           dates: Dates, ok: bool, s: nat)
    requires MainTranscribed(v0, f0, values, fills, absentees, weather, manager, dates, ok)
    requires s < SlotCount && SlotId(v0, s) == ""
    ensures ValueAt(values, SlotAt(s)) == ValueAt(v0, SlotAt(s))
    ensures FillAt(fills, SlotAt(s)) == FillAt(f0, SlotAt(s))
    ensures ValueAt(values, StatusCell(s)) == ValueAt(v0, StatusCell(s))
  {
    IdCellsAreNotStatusCells(SlotAt(s));
    IdCellsAreNotFixed(SlotAt(s));
  }

  /** No identifier cell is one of the fixed cells. */
  lemma IdCellsAreNotFixed(c: Coord)
    requires IsIdCell(c)
    ensures !IsFixedMainCell(c)
  {
    CounterCellsOneToOne();
  }

  /** The status values of the roster slots, in scan order. */
  function Statuses(values: map<Coord, Value>): (r: seq<Value>)
    ensures |r| == SlotCount
    ensures forall s :: 0 <= s < SlotCount ==> r[s] == ValueAt(values, StatusCell(s))
  {
    seq(SlotCount, s requires 0 <= s < SlotCount => ValueAt(values, StatusCell(s)))
  }

  /** On the transcribed sheet each counter cell holds the number of slots
      marked absent whose identifier's reason is that counter's reason:
      counting is per roster slot, not per submitted entry. */
  lemma CountersCountMarks(v0: map<Coord, Value>, f0: map<Coord, string>,
                           values: map<Coord, Value>, fills: map<Coord, string>,
                           absentees: seq<Absentee>, weather: Option<string>, manager: string,
                           dates: Dates, ok: bool, i: nat)
    requires MainTranscribed(v0, f0, values, fills, absentees, weather, manager, dates, ok)
    requires "" !in ReasonMap(absentees)
    requires i < |CounterCells|
    ensures ValueAt(values, CounterCells[i]) ==
              Int(MarkedTally(Statuses(values), SlotIds(v0), ReasonMap(absentees), ReasonOptions[i], SlotCount))
  {
    var rmap := ReasonMap(absentees);
    TallyCountsMarks(Statuses(values), Statuses(v0), SlotIds(v0), rmap, ReasonOptions[i], SlotCount);
  }

  /** No status cell is one of the fixed cells. */
  lemma StatusCellsAreNotFixed(c: Coord)
    requires IsStatusCell(c)
    ensures !IsFixedMainCell(c)
  {
    CounterCellsOneToOne();
  }

  /** update_excel on the two in-memory sheets. Returns false where the
      source raises ValueError on an unreadable expected headcount (D66),
      after the log and counters are written but before L66 and S69. */
  method UpdateExcel(main: Worksheet, log: Worksheet, absentees: seq<Absentee>, weather: Option<string>,
                     manager: string, dates: Dates) returns (ok: bool)
    requires main != log
    modifies main, log
    ensures MainTranscribed(old(main.values), old(main.fills), main.values, main.fills, absentees, weather, manager, dates, ok)
    ensures LogRowsUpTo(log.values, old(log.values), absentees, dates, |absentees|)
    ensures log.fills == old(log.fills)
  {
    ghost var v0 := main.values;
    var rmap := ReasonMap(absentees);
    var counts := MarkRoster(main, rmap);
    ghost var v1 := main.values;
    WriteHeader(main, weather, dates);
    ghost var v2 := main.values;
    WriteLog(log, absentees, dates);
    WriteCounters(main, counts);
    ghost var v3 := main.values;
    var headcount := Headcount(main.Get(ExpectedHeadcountCell), |absentees|);
    if headcount.None? {
      ok := false;
    } else {
      main.SetValue(HeadcountCell, Int(headcount.value));
      if manager != "" {
        main.SetValue(ManagerCell, Text(ManagerLine(manager)));
      }
      ok := true;
    }
    TranscriptionComposes(v0, v1, v2, v3, main.values, main.fills, old(main.fills), counts, absentees, weather, manager, dates, ok);
  }

  /** The footer writes L66 (when D66 is readable) and S69 (when there is
      also a manager) and nothing else. */
  lemma FooterWritten(v3: map<Coord, Value>, values: map<Coord, Value>, absentCount: nat, manager: string, ok: bool)
    requires ok == Headcount(ValueAt(v3, ExpectedHeadcountCell), absentCount).Some?
    requires !ok ==> values == v3
    requires ok && manager == "" ==>
               values == v3[HeadcountCell := Int(Headcount(ValueAt(v3, ExpectedHeadcountCell), absentCount).value)]
    requires ok && manager != "" ==>
               values == v3[HeadcountCell := Int(Headcount(ValueAt(v3, ExpectedHeadcountCell), absentCount).value)]
                           [ManagerCell := Text(ManagerLine(manager))]
    ensures FooterTranscribed(v3, values, absentCount, manager, ok)
    ensures forall c :: c != HeadcountCell && c != ManagerCell ==> ValueAt(values, c) == ValueAt(v3, c)
  {
  }

  /** Between the grid pass (v1) and the footer (v3) only C4, the weather
      cells and the counter cells are written. */
  lemma HeaderAndCountersFrame(v1: map<Coord, Value>, v2: map<Coord, Value>, v3: map<Coord, Value>)
    requires forall c :: c != HeaderDateCell && c !in WeatherCells.Values ==> ValueAt(v2, c) == ValueAt(v1, c)
    requires forall c :: c !in CounterCells ==> ValueAt(v3, c) == ValueAt(v2, c)
    ensures forall c :: !IsFixedMainCell(c) ==> ValueAt(v3, c) == ValueAt(v1, c)
    ensures ValueAt(v3, HeadcountCell) == ValueAt(v1, HeadcountCell) && ValueAt(v3, ManagerCell) == ValueAt(v1, ManagerCell)
  {
    CounterCellsOneToOne();
  }

  /** The counters do not overwrite C4 or a weather cell. */
  lemma CountersKeepHeader(v2: map<Coord, Value>, counts: map<string, int>)
    requires forall r :: r in ReasonOptions ==> r in counts
    ensures forall c :: c in WeatherCells.Values || c == HeaderDateCell ==> ValueAt(WithCounters(v2, counts), c) == ValueAt(v2, c)
  {
    CountersFrame(v2, counts);
    forall c | c in WeatherCells.Values || c == HeaderDateCell ensures c !in CounterCells {
    }
  }

  /** The steps of the transcription compose to MainTranscribed: the grid
      pass (v0 to v1), the header (v1 to v2), the counters (v2 to v3) and
      the footer (v3 to the final values). */
  lemma {:induction false} TranscriptionComposes(v0: map<Coord, Value>, v1: map<Coord, Value>, v2: map<Coord, Value>, v3: map<Coord, Value>,
                              values: map<Coord, Value>, fills: map<Coord, string>, f0: map<Coord, string>,
                              counts: map<string, int>, absentees: seq<Absentee>, weather: Option<string>,
                              manager: string, dates: Dates, ok: bool)
    requires ValuesMarked(v1, v0, SlotIds(v0), ReasonMap(absentees), SlotCount)
    requires FillsMarked(fills, f0, SlotIds(v0), ReasonMap(absentees), SlotCount)
    requires CountedUpTo(counts, SlotIds(v0), ReasonMap(absentees), SlotCount)
    requires v2 == WithHeader(v1, weather, dates)
    requires v3 == WithCounters(v2, counts)
    requires ok == Headcount(ValueAt(v3, ExpectedHeadcountCell), |absentees|).Some?
    requires !ok ==> values == v3
    requires ok && manager == "" ==>
               values == v3[HeadcountCell := Int(Headcount(ValueAt(v3, ExpectedHeadcountCell), |absentees|).value)]
    requires ok && manager != "" ==>
               values == v3[HeadcountCell := Int(Headcount(ValueAt(v3, ExpectedHeadcountCell), |absentees|).value)]
                           [ManagerCell := Text(ManagerLine(manager))]
    ensures MainTranscribed(v0, f0, values, fills, absentees, weather, manager, dates, ok)
  {
    var rmap := ReasonMap(absentees);
    FooterWritten(v3, values, |absentees|, manager, ok);
    HeaderWritten(v1, weather, dates);
    CountersFrame(v2, counts);
    HeaderAndCountersFrame(v1, v2, v3);
    CountersKeepHeader(v2, counts);
    RosterPart(v0, v1, v3, values, fills, f0, rmap);
    CountersPart(v0, v2, v3, values, counts, rmap);
    HeaderPart(v0, v1, v2, v3, values, weather, dates);
    FooterPart(v0, v1, v3, values, |absentees|, manager, ok);
  }

  lemma CountersPart(v0: map<Coord, Value>, v2: map<Coord, Value>, v3: map<Coord, Value>, values: map<Coord, Value>,
                     counts: map<string, int>, rmap: map<string, string>)
    requires CountedUpTo(counts, SlotIds(v0), rmap, SlotCount)
    requires v3 == WithCounters(v2, counts)
    requires forall c :: c != HeadcountCell && c != ManagerCell ==> ValueAt(values, c) == ValueAt(v3, c)
    ensures CountersTranscribed(v0, values, rmap)
  {
    CounterCellsOneToOne();
    forall i | 0 <= i < |CounterCells|
      ensures ValueAt(values, CounterCells[i]) == Int(Tally(SlotIds(v0), rmap, ReasonOptions[i], SlotCount))
    {
      CounterWritten(v2, counts, i);
    }
  }

  lemma HeaderPart(v0: map<Coord, Value>, v1: map<Coord, Value>, v2: map<Coord, Value>, v3: map<Coord, Value>,
                   values: map<Coord, Value>, weather: Option<string>, dates: Dates)
    requires forall c :: !IsStatusCell(c) ==> ValueAt(v1, c) == ValueAt(v0, c)
    requires v2 == WithHeader(v1, weather, dates)
    requires forall c :: c in WeatherCells.Values || c == HeaderDateCell ==> ValueAt(v3, c) == ValueAt(v2, c)
    requires forall c :: c != HeadcountCell && c != ManagerCell ==> ValueAt(values, c) == ValueAt(v3, c)
    ensures HeaderTranscribed(v0, values, weather, dates)
  {
    HeaderWritten(v1, weather, dates);
  }

  lemma FooterPart(v0: map<Coord, Value>, v1: map<Coord, Value>, v3: map<Coord, Value>, values: map<Coord, Value>,
                   absentCount: nat, manager: string, ok: bool)
    requires forall c :: !IsStatusCell(c) ==> ValueAt(v1, c) == ValueAt(v0, c)
    requires forall c :: !IsFixedMainCell(c) ==> ValueAt(v3, c) == ValueAt(v1, c)
    requires ValueAt(v3, HeadcountCell) == ValueAt(v1, HeadcountCell) && ValueAt(v3, ManagerCell) == ValueAt(v1, ManagerCell)
    requires FooterTranscribed(v3, values, absentCount, manager, ok)
    ensures FooterTranscribed(v0, values, absentCount, manager, ok)
  {
    CounterCellsOneToOne();
    assert ValueAt(v3, ExpectedHeadcountCell) == ValueAt(v0, ExpectedHeadcountCell);
  }

  lemma RosterPart(v0: map<Coord, Value>, v1: map<Coord, Value>, v3: map<Coord, Value>, values: map<Coord, Value>,
                   fills: map<Coord, string>, f0: map<Coord, string>, rmap: map<string, string>)
    requires ValuesMarked(v1, v0, SlotIds(v0), rmap, SlotCount)
    requires FillsMarked(fills, f0, SlotIds(v0), rmap, SlotCount)
    requires forall c :: !IsFixedMainCell(c) ==> ValueAt(v3, c) == ValueAt(v1, c)
    requires forall c :: c != HeadcountCell && c != ManagerCell ==> ValueAt(values, c) == ValueAt(v3, c)
    ensures RosterTranscribed(v0, f0, values, fills, rmap)
    ensures forall c :: !IsStatusCell(c) && !IsFixedMainCell(c) ==> ValueAt(values, c) == ValueAt(v0, c)
  {
    var ids := SlotIds(v0);
    forall s | 0 <= s < SlotCount
      ensures ValueAt(values, StatusCell(s)) == StatusAfter(SlotId(v0, s), rmap, ValueAt(v0, StatusCell(s)))
    {
      StatusCellsAreNotFixed(StatusCell(s));
    }
  }
}

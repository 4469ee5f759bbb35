/** The fixed layout of the attendance workbook: the roster grid of the
    attendance sheet, the fixed header and summary cells, the absence-log
    sheet's rows, and the reason tables (colours and counter cells).
    Coordinates are (row, column), both 1-based as in the workbook. */
module Layout {

  type Coord = (int, int)

  // ---------------------------------------------------------------------
  // The roster grid: rows 6..61, identifier columns B, H, N, T, Z; the
  // status mark goes in the column right of the identifier.
  // ---------------------------------------------------------------------

  const FirstRow: int := 6
  const LastRow: int := 61
  const IdColumns: seq<int> := [2, 8, 14, 20, 26]
  const SlotsPerRow: nat := 5
  const SlotCount: nat := 280

  /** Roster slots are numbered in the order the source scans them: row by
      row, and within a row by identifier column. */
  function SlotAt(s: nat): (c: Coord)
    requires s < SlotCount
    ensures IsIdCell(c)
  {
    (FirstRow + s / SlotsPerRow, IdColumns[s % SlotsPerRow])
  }

  /** The status cell of slot `s`: same row, the column after the
      identifier. */
  function StatusCell(s: nat): (c: Coord)
    requires s < SlotCount
    ensures IsStatusCell(c)
  {
    (SlotAt(s).0, SlotAt(s).1 + 1)
  }

  predicate IsIdCell(c: Coord) {
    FirstRow <= c.0 <= LastRow && c.1 in IdColumns
  }

  predicate IsStatusCell(c: Coord) {
    FirstRow <= c.0 <= LastRow && c.1 - 1 in IdColumns
  }

  /** The slot the nested scan reaches at `row` and identifier column k. */
  function ScanSlot(row: int, k: nat): int {
    (row - FirstRow) * SlotsPerRow + k
  }

  /** The nested scan (row, then column k) visits slot (row - 6) * 5 + k. */
  lemma SlotOfRowColumn(row: int, k: nat)
    requires FirstRow <= row <= LastRow && k < SlotsPerRow
    ensures (row - FirstRow) * SlotsPerRow + k < SlotCount
    ensures SlotAt((row - FirstRow) * SlotsPerRow + k) == (row, IdColumns[k])
  {
    var s := (row - FirstRow) * SlotsPerRow + k;
    assert s / SlotsPerRow == row - FirstRow && s % SlotsPerRow == k;
  }

  /** Distinct slots occupy distinct identifier cells and distinct status
      cells. */
  lemma SlotsDistinct(s: nat, t: nat)
    requires s < SlotCount && t < SlotCount && s != t
    ensures SlotAt(s) != SlotAt(t) && StatusCell(s) != StatusCell(t)
  {
    var q, r := s / SlotsPerRow, s % SlotsPerRow;
    var q', r' := t / SlotsPerRow, t % SlotsPerRow;
    assert s == q * SlotsPerRow + r && t == q' * SlotsPerRow + r';
    if q == q' {
      assert r != r';
      assert IdColumns[r] != IdColumns[r'];
    }
  }

  /** No identifier cell is a status cell, so writing marks never changes
      an identifier. */
  lemma IdCellsAreNotStatusCells(c: Coord)
    requires IsIdCell(c)
    ensures !IsStatusCell(c)
  {
  }

  // ---------------------------------------------------------------------
  // Fixed cells of the attendance sheet
  // ---------------------------------------------------------------------

  const HeaderDateCell: Coord := (4, 3)            // C4
  const ExpectedHeadcountCell: Coord := (66, 4)    // D66
  const HeadcountCell: Coord := (66, 12)           // L66
  const ManagerCell: Coord := (69, 19)             // S69

  /** Weather option to the cell that gets its "X": P4, S4, V4. */
  const WeatherCells: map<string, Coord> := map["晴" := (4, 16), "陰" := (4, 19), "雨" := (4, 22)]

  const AbsentMark: string := "X"
  const PresentMark: string := "V"
  const WeatherMark: string := "X"
  const ManagerPrefix: string := "移工管理員：吳廷湘 "

  // ---------------------------------------------------------------------
  // The absence-log sheet
  // ---------------------------------------------------------------------

  const LogDateCell: Coord := (2, 9)               // I2
  const LogFirstRow: int := 5
  const LogColumns: int := 6
  const OrgCode: string := "GC01"
  const Location: string := "宿舍"

  // ---------------------------------------------------------------------
  // Reasons: the selectable options, the fill colours and counter cells
  // ---------------------------------------------------------------------

  const ReasonOptions: seq<string> := [
    "休假", "曠職", "體檢", "年休返泰",
    "事假返鄉", "工傷", "病假", "待返",
    "遣返", "提前解聘", "逃跑", "調派"
  ]

  const FillColours: map<string, string> := map[
    "休假" := "FFFF00",
    "曠職" := "FF6666",
    "體檢" := "B7DEE8",
    "年休返泰" := "D9EAD3",
    "事假返鄉" := "D0E0E3",
    "工傷" := "FFD966",
    "病假" := "C9DAF8",
    "待返" := "EAD1DC",
    "遣返" := "F6B26B",
    "提前解聘" := "A4C2F4",
    "逃跑" := "E06666",
    "調派" := "76A5AF"
  ]

  const DefaultFill: string := "DDDDDD"

  /** The cell each reason's counter is written to, aligned with
      ReasonOptions: K62, K63, C62, T62, AA62, C63, T63, AA63, C64, K64,
      T64, AA64. */
  const CounterCells: seq<Coord> := [
    (62, 11), (63, 11), (62, 3), (62, 20),
    (62, 27), (63, 3), (63, 20), (63, 27),
    (64, 3), (64, 11), (64, 20), (64, 27)
  ]

  /** The colour an absent slot is filled with: the reason's table colour,
      or the neutral default for a reason outside the table. */
  function FillColour(reason: string): (colour: string)
    ensures colour != DefaultFill <==> reason in ReasonOptions
    ensures colour == DefaultFill || colour in FillColours.Values
  {
    if reason in FillColours then FillColours[reason] else DefaultFill
  }

  /** Each of the twelve options is filled with its own table colour, any
      other reason with the default. */
  lemma FillColourTable(reason: string)
    ensures reason in ReasonOptions ==> FillColour(reason) == FillColours[reason] && FillColour(reason) != DefaultFill
    ensures reason !in ReasonOptions ==> FillColour(reason) == DefaultFill
  {
  }

  /** The options and the colour table cover the same twelve distinct
      reasons, and there is one counter cell per option. */
  lemma ReasonTablesAgree()
    ensures |ReasonOptions| == |CounterCells| == 12
    ensures forall i, j :: 0 <= i < j < |ReasonOptions| ==> ReasonOptions[i] != ReasonOptions[j]
    ensures forall r :: r in FillColours <==> r in ReasonOptions
  {
  }

  /** Every reason has its own counter cell, and none of them lies in the
      roster grid. */
  lemma CounterCellsOneToOne()
    ensures forall i, j :: 0 <= i < j < |CounterCells| ==> CounterCells[i] != CounterCells[j]
    ensures forall i :: 0 <= i < |CounterCells| ==> !IsStatusCell(CounterCells[i]) && !IsIdCell(CounterCells[i])
  {
  }
}

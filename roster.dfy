/** The roster scan: the set of valid identifiers is every non-empty
    normalised identifier in the roster grid's identifier cells. */
module Roster {
  import opened Cells
  import opened Layout
  import opened Worksheets

  /** The identifier roster slot `s` holds ("" for no worker). */
  function SlotId(values: map<Coord, Value>, s: nat): string
    requires s < SlotCount
  {
    Normalize(ValueAt(values, SlotAt(s)))
  }

  /** The identifiers of all slots, in scan order. */
  function SlotIds(values: map<Coord, Value>): (ids: seq<string>)
    ensures |ids| == SlotCount
    ensures forall s :: 0 <= s < SlotCount ==> ids[s] == SlotId(values, s)
  {
    seq(SlotCount, s requires 0 <= s < SlotCount => SlotId(values, s))
  }

  /** Slot order is the scan order of the roster: the identifier read at
      row `row` and identifier column k is entry ScanSlot(row, k), that is
      (row - 6) * 5 + k, of SlotIds. */
  lemma SlotIdsInScanOrder(values: map<Coord, Value>)
    ensures forall row, k :: FirstRow <= row <= LastRow && 0 <= k < |IdColumns| ==>
              0 <= ScanSlot(row, k) < SlotCount
              && SlotIds(values)[ScanSlot(row, k)] == Normalize(ValueAt(values, (row, IdColumns[k])))
  {
    forall row, k | FirstRow <= row <= LastRow && 0 <= k < |IdColumns|
      ensures 0 <= ScanSlot(row, k) < SlotCount && SlotAt(ScanSlot(row, k)) == (row, IdColumns[k])
    {
      SlotOfRowColumn(row, k);
    }
  }

  /** The non-empty identifiers among the first `n` of `ids`. */
  function Collect(ids: seq<string>, n: nat): (r: set<string>)
    requires n <= |ids|
    ensures "" !in r
  {
    if n == 0 then {}
    else Collect(ids, n - 1) + if ids[n - 1] == "" then {} else {ids[n - 1]}
  }

  /** An identifier is collected exactly when it is non-empty and one of
      the first `n` slots holds it. */
  lemma {:induction false} CollectMembers(ids: seq<string>, n: nat, id: string)
    requires n <= |ids|
    ensures id in Collect(ids, n) <==> id != "" && exists s :: 0 <= s < n && ids[s] == id
  {
    if n > 0 {
      CollectMembers(ids, n - 1, id);
    }
  }

  /** The valid identifiers of a roster. */
  function RosterIds(values: map<Coord, Value>): set<string> {
    Collect(SlotIds(values), SlotCount)
  }

  lemma RosterIdsMembers(values: map<Coord, Value>, id: string)
    ensures id in RosterIds(values) <==> id != "" && exists s :: 0 <= s < SlotCount && SlotId(values, s) == id
  {
    var ids := SlotIds(values);
    CollectMembers(ids, SlotCount, id);
    if id in RosterIds(values) {
      var s :| 0 <= s < SlotCount && ids[s] == id;
      assert SlotId(values, s) == id;
    }
  }

  /** load_valid_emp_ids: scan rows 6..61 and the five identifier columns,
      adding every non-empty normalised identifier. */
  method LoadValidIds(ws: Worksheet) returns (valid: set<string>)
    ensures valid == RosterIds(ws.values)
    ensures "" !in valid
    ensures forall id :: id in valid <==> id != "" && exists s :: 0 <= s < SlotCount && SlotId(ws.values, s) == id
  {
    ghost var ids := SlotIds(ws.values);
    ghost var s: nat := 0;  // the slot number of (row, IdColumns[k])
    valid := {};
    var row := FirstRow;
    while row <= LastRow
      invariant FirstRow <= row <= LastRow + 1
      invariant s == (row - FirstRow) * SlotsPerRow
      invariant valid == Collect(ids, s)
    {
      var k := 0;
      while k < |IdColumns|
        invariant 0 <= k <= |IdColumns|
        invariant s == (row - FirstRow) * SlotsPerRow + k
        invariant valid == Collect(ids, s)
      {
        SlotOfRowColumn(row, k);
        var eid := Normalize(ws.Get((row, IdColumns[k])));
        assert eid == SlotId(ws.values, s) == ids[s];
        assert Collect(ids, s + 1) == Collect(ids, s) + if ids[s] == "" then {} else {ids[s]};
        if eid != "" {
          valid := valid + {eid};
        }
        k := k + 1;
        s := s + 1;
      }
      row := row + 1;
    }
    forall id ensures id in valid <==> id != "" && exists s :: 0 <= s < SlotCount && SlotId(ws.values, s) == id {
      RosterIdsMembers(ws.values, id);
    }
  }
}

/** A worksheet as the engine sees it: a value and a fill colour per
    cell, changed in place one cell at a time. */
module Worksheets {
  import opened Cells
  import opened Layout

  /** The value at `c`; a cell never written reads as empty. */
  function ValueAt(values: map<Coord, Value>, c: Coord): Value {
    if c in values then values[c] else Empty
  }

  /** The solid fill colour at `c`, if one is set. */
  function FillAt(fills: map<Coord, string>, c: Coord): Option<string> {
    if c in fills then Some(fills[c]) else None
  }

  class Worksheet {
    var values: map<Coord, Value>
    var fills: map<Coord, string>

    constructor (values: map<Coord, Value>, fills: map<Coord, string>)
      ensures this.values == values && this.fills == fills
    {
      this.values := values;
      this.fills := fills;
    }

    function Get(c: Coord): Value
      reads this
    {
      ValueAt(values, c)
    }

    function Fill(c: Coord): Option<string>
      reads this
    {
      FillAt(fills, c)
    }

    /** Assigning a cell's value leaves every other cell and every fill as
        it was. */
    method SetValue(c: Coord, v: Value)
      modifies this
      ensures values == old(values)[c := v] && fills == old(fills)
      ensures Get(c) == v
    {
      values := values[c := v];
    }

    /** Assigning a cell's fill leaves every other fill and every value as
        it was. */
    method SetFill(c: Coord, colour: string)
      modifies this
      ensures fills == old(fills)[c := colour] && values == old(values)
      ensures Fill(c) == Some(colour)
    {
      fills := fills[c := colour];
    }
  }
}

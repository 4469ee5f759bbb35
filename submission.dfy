/** The submission handler's POST path: validate the submitted batch,
    assemble the absentee list and transcribe it into the workbook, or
    stop with the outcome the handler reports. */
module Submission {
  import opened Cells
  import opened Layout
  import opened Worksheets
  import opened Roster
  import opened Validation
  import opened Tallies
  import opened Transcription

  datatype Outcome =
    | Generated                               // the workbook is written and sent back
    | Rejected(errors: seq<ValidationError>)  // the form comes back with the errors; nothing is written
    | ReasonMissing                           // a non-blank entry has no reason (IndexError)
    | HeadcountUnreadable                     // D66 holds text that is not an integer (ValueError)

  /** One POST of the form. `managerField` is the manager field ("" when
      absent), `weather` the weather field (None when absent), `validIds`
      the identifiers loaded from the roster at start-up. */
  method HandleSubmission(main: Worksheet, log: Worksheet, empIds: seq<string>, reasons: seq<string>,
                          weather: Option<string>, managerField: string, validIds: set<string>, dates: Dates)
    returns (outcome: Outcome)
    requires main != log
    modifies main, log
    ensures outcome.Rejected? <==> BatchErrors(empIds, validIds) != []
    ensures outcome.Rejected? ==> outcome.errors == BatchErrors(empIds, validIds)
    ensures outcome.ReasonMissing? <==>
              BatchErrors(empIds, validIds) == [] && AssembleAbsentees(StripAll(empIds), reasons).None?
    ensures outcome.Rejected? || outcome.ReasonMissing? ==> unchanged(main) && unchanged(log)
    ensures outcome.Generated? || outcome.HeadcountUnreadable? ==>
              var absentees := AssembleAbsentees(StripAll(empIds), reasons).value;
              && MainTranscribed(old(main.values), old(main.fills), main.values, main.fills,
                                 absentees, weather, Strip(managerField), dates, outcome.Generated?)
              && LogRowsUpTo(log.values, old(log.values), absentees, dates, |absentees|)
              && log.fills == old(log.fills)
  {
    var manager := Strip(managerField);
    var errors, cleaned := Validate(empIds, validIds);
    if errors != [] {
      return Rejected(errors);
    }
    var absentees := AssembleAbsentees(cleaned, reasons);
    if absentees.None? {
      return ReasonMissing;
    }
    var ok := UpdateExcel(main, log, absentees.value, weather, manager, dates);
    outcome := if ok then Generated else HeadcountUnreadable;
  }

  /** Assembled absentees have non-blank identifiers, so the blank
      identifier is never a key of the reason map. */
  lemma AssembledReasonMapHasNoBlank(empIds: seq<string>, reasons: seq<string>)
    requires AssembleAbsentees(StripAll(empIds), reasons).Some?
    ensures "" !in ReasonMap(AssembleAbsentees(StripAll(empIds), reasons).value)
  {
    var cleaned := StripAll(empIds);
    var absentees := AssembleAbsentees(cleaned, reasons).value;
    var idx := NonBlankIndices(cleaned, |cleaned|);
    NonBlankIndicesNonBlank(cleaned, |cleaned|);
    forall a | a in absentees ensures Strip(a.id) != "" {
      var j :| 0 <= j < |absentees| && absentees[j] == a;
      assert a.id == cleaned[idx[j]];
    }
    ReasonMapNoBlankKey(absentees);
  }

  /** A roster identifier that is a key of the reason map occupies a slot
      that the transcription marks absent and fills with the colour of its
      reason. */
  lemma RosterAbsenteeMarked(v0: map<Coord, Value>, f0: map<Coord, string>, rmap: map<string, string>, id: string)
    requires id in RosterIds(v0) && id in rmap
    ensures exists s :: 0 <= s < SlotCount && SlotId(v0, s) == id
              && StatusAfter(SlotId(v0, s), rmap, ValueAt(v0, StatusCell(s))) == Text(AbsentMark)
              && FillAfter(SlotId(v0, s), rmap, FillAt(f0, SlotAt(s))) == Some(FillColour(rmap[id]))
  {
    RosterIdsMembers(v0, id);
  }

  /** End to end: when the valid identifiers are the roster of the sheet
      being transcribed and the batch passed validation, every reported
      absentee is a key of the reason map and occupies a roster slot, and
      the transcription marks that slot absent and fills it with the colour
      of the identifier's (last) reason. */
  lemma ReportedAbsenteeIsMarked(v0: map<Coord, Value>, f0: map<Coord, string>,
                                 empIds: seq<string>, reasons: seq<string>, k: nat)
    requires BatchErrors(empIds, RosterIds(v0)) == []
    requires AssembleAbsentees(StripAll(empIds), reasons).Some?
    requires k < |AssembleAbsentees(StripAll(empIds), reasons).value|
    ensures var absentees := AssembleAbsentees(StripAll(empIds), reasons).value;
            var rmap := ReasonMap(absentees);
            && absentees[k].id in rmap
            && exists s :: 0 <= s < SlotCount && SlotId(v0, s) == absentees[k].id
                 && StatusAfter(SlotId(v0, s), rmap, ValueAt(v0, StatusCell(s))) == Text(AbsentMark)
                 && FillAfter(SlotId(v0, s), rmap, FillAt(f0, SlotAt(s))) == Some(FillColour(rmap[absentees[k].id]))
  {
    var absentees := AssembleAbsentees(StripAll(empIds), reasons).value;
    var a := absentees[k];
    ValidatedAbsentees(empIds, reasons, RosterIds(v0), StripAll(empIds));
    assert a in absentees;
    assert Strip(a.id) == a.id && a.id in RosterIds(v0);
    ReasonMapKeys(absentees, a.id);
    RosterAbsenteeMarked(v0, f0, ReasonMap(absentees), a.id);
  }
}

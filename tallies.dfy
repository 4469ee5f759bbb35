/** The reason map built from the absentee list, and the per-slot
    tallies the transcription accumulates, stated over the sequence of
    slot identifiers in scan order. */
module Tallies {
  import opened Cells
  import opened Layout
  import opened Validation

  // ---------------------------------------------------------------------
  // The reason map
  // ---------------------------------------------------------------------

  /** Each absentee's stripped identifier mapped to its reason; the
      entries are inserted in order, so a later entry for the same
      identifier replaces an earlier one. */
  function ReasonMap(absentees: seq<Absentee>): (rmap: map<string, string>)
    ensures |rmap| <= |absentees|
  {
    if absentees == [] then map[]
    else
      var last := absentees[|absentees| - 1];
      ReasonMap(absentees[..|absentees| - 1])[Strip(last.id) := last.reason]
  }

  /** The keys are exactly the stripped identifiers of the entries. */
  lemma {:induction false} ReasonMapKeys(absentees: seq<Absentee>, id: string)
    ensures id in ReasonMap(absentees) <==> exists k :: 0 <= k < |absentees| && Strip(absentees[k].id) == id
  {
    if absentees != [] {
      var init := absentees[..|absentees| - 1];
      ReasonMapKeys(init, id);
      if exists k :: 0 <= k < |init| && Strip(init[k].id) == id {
        var k :| 0 <= k < |init| && Strip(init[k].id) == id;
        assert absentees[k] == init[k];
      }
      if exists k :: 0 <= k < |absentees| && Strip(absentees[k].id) == id {
        var k :| 0 <= k < |absentees| && Strip(absentees[k].id) == id;
        if k < |init| { assert init[k] == absentees[k]; }
      }
    }
  }

  /** Last write wins: an identifier maps to the reason of the last entry
      carrying it. */
  lemma {:induction false} ReasonMapLastWins(absentees: seq<Absentee>, k: nat)
    requires k < |absentees|
    requires forall j :: k < j < |absentees| ==> Strip(absentees[j].id) != Strip(absentees[k].id)
    ensures Strip(absentees[k].id) in ReasonMap(absentees)
    ensures ReasonMap(absentees)[Strip(absentees[k].id)] == absentees[k].reason
  {
    var init := absentees[..|absentees| - 1];
    if k < |absentees| - 1 {
      assert init[k] == absentees[k];
      ReasonMapLastWins(init, k);
    }
  }

  /** When no entry's identifier is blank, "" is not a key. */
  lemma ReasonMapNoBlankKey(absentees: seq<Absentee>)
    requires forall a :: a in absentees ==> Strip(a.id) != ""
    ensures "" !in ReasonMap(absentees)
  {
    ReasonMapKeys(absentees, "");
  }

  // ---------------------------------------------------------------------
  // Marks and fills of one slot
  // ---------------------------------------------------------------------

  /** The status cell's value after marking a slot holding `id`: an
      absence mark for an identifier of the reason map, a presence mark
      for any other non-empty identifier, the old value for an empty slot. */
  function StatusAfter(id: string, rmap: map<string, string>, old_: Value): Value {
    if id == "" then old_
    else if id in rmap then Text(AbsentMark)
    else Text(PresentMark)
  }

  /** The identifier cell's fill after marking: the reason's colour for an
      absent worker, the old fill otherwise. */
  function FillAfter(id: string, rmap: map<string, string>, old_: Option<string>): Option<string> {
    if id != "" && id in rmap then Some(FillColour(rmap[id])) else old_
  }

  // ---------------------------------------------------------------------
  // Tallies over the first n slots
  // ---------------------------------------------------------------------

  /** Slot k holds a worker the reason map lists as absent. */
  predicate AbsentAt(ids: seq<string>, rmap: map<string, string>, k: nat)
    requires k < |ids|
  {
    ids[k] != "" && ids[k] in rmap
  }

  /** The number of absent slots among the first n whose reason is `reason`:
      the counter the transcription keeps for that reason. */
  function Tally(ids: seq<string>, rmap: map<string, string>, reason: string, n: nat): nat
    requires n <= |ids|
  {
    if n == 0 then 0
    else Tally(ids, rmap, reason, n - 1) + if AbsentAt(ids, rmap, n - 1) && rmap[ids[n - 1]] == reason then 1 else 0
  }

  function AbsentTally(ids: seq<string>, rmap: map<string, string>, n: nat): nat
    requires n <= |ids|
  {
    if n == 0 then 0
    else AbsentTally(ids, rmap, n - 1) + if AbsentAt(ids, rmap, n - 1) then 1 else 0
  }

  function PresentTally(ids: seq<string>, rmap: map<string, string>, n: nat): nat
    requires n <= |ids|
  {
    if n == 0 then 0
    else PresentTally(ids, rmap, n - 1) + if ids[n - 1] != "" && ids[n - 1] !in rmap then 1 else 0
  }

  function OccupiedTally(ids: seq<string>, n: nat): nat
    requires n <= |ids|
  {
    if n == 0 then 0 else OccupiedTally(ids, n - 1) + if ids[n - 1] != "" then 1 else 0
  }

  /** Absent slots among the first n whose reason is one of `reasons`. */
  function RecognisedTally(ids: seq<string>, rmap: map<string, string>, reasons: seq<string>, n: nat): nat
    requires n <= |ids|
  {
    if n == 0 then 0
    else RecognisedTally(ids, rmap, reasons, n - 1) + if AbsentAt(ids, rmap, n - 1) && rmap[ids[n - 1]] in reasons then 1 else 0
  }

  /** The sum of the tallies of `reasons`. */
  function SumOfTallies(ids: seq<string>, rmap: map<string, string>, reasons: seq<string>, n: nat): nat
    requires n <= |ids|
  {
    if reasons == [] then 0 else Tally(ids, rmap, reasons[0], n) + SumOfTallies(ids, rmap, reasons[1..], n)
  }

  /** How many of `reasons` slot k is absent for. */
  function Hits(ids: seq<string>, rmap: map<string, string>, reasons: seq<string>, k: nat): nat
    requires k < |ids|
  {
    if reasons == [] then 0
    else (if AbsentAt(ids, rmap, k) && rmap[ids[k]] == reasons[0] then 1 else 0) + Hits(ids, rmap, reasons[1..], k)
  }

  predicate Distinct(reasons: seq<string>) {
    forall i, j :: 0 <= i < j < |reasons| ==> reasons[i] != reasons[j]
  }

  /** The number of occupied slots among the first n whose status value
      is the text `mark`. */
  function MarkCount(statuses: seq<Value>, ids: seq<string>, mark: string, n: nat): nat
    requires n <= |ids| == |statuses|
  {
    if n == 0 then 0
    else MarkCount(statuses, ids, mark, n - 1) + if ids[n - 1] != "" && statuses[n - 1] == Text(mark) then 1 else 0
  }

  /** Statuses written by the grid pass: each slot's status is the one
      StatusAfter gives for its identifier and its old status. */
  ghost predicate Marked(statuses: seq<Value>, olds: seq<Value>, ids: seq<string>, rmap: map<string, string>)
    requires |ids| == |statuses| == |olds|
  {
    forall k :: 0 <= k < |ids| ==> statuses[k] == StatusAfter(ids[k], rmap, olds[k])
  }

  /** Every non-empty slot gets exactly one mark: the X-marked occupied
      slots are the absent ones, the V-marked occupied slots the present
      ones, and together they are all occupied slots. */
  lemma {:induction false} MarksCoverOccupied(statuses: seq<Value>, olds: seq<Value>, ids: seq<string>,
                                              rmap: map<string, string>, n: nat)
    requires n <= |ids| == |statuses| == |olds| && Marked(statuses, olds, ids, rmap)
    ensures MarkCount(statuses, ids, AbsentMark, n) == AbsentTally(ids, rmap, n)
    ensures MarkCount(statuses, ids, PresentMark, n) == PresentTally(ids, rmap, n)
    ensures MarkCount(statuses, ids, AbsentMark, n) + MarkCount(statuses, ids, PresentMark, n) == OccupiedTally(ids, n)
  {
    if n > 0 {
      MarksCoverOccupied(statuses, olds, ids, rmap, n - 1);
      assert statuses[n - 1] == StatusAfter(ids[n - 1], rmap, olds[n - 1]);
    }
  }

  lemma {:induction false} SumOfTalliesStep(ids: seq<string>, rmap: map<string, string>, reasons: seq<string>, n: nat)
    requires 0 < n <= |ids|
    ensures SumOfTallies(ids, rmap, reasons, n) == SumOfTallies(ids, rmap, reasons, n - 1) + Hits(ids, rmap, reasons, n - 1)
  {
    if reasons != [] {
      SumOfTalliesStep(ids, rmap, reasons[1..], n);
    }
  }

  /** Over distinct reasons a slot is a hit for at most one: the one its
      reason equals, if that is among them. */
  lemma {:induction false} HitsOfDistinct(ids: seq<string>, rmap: map<string, string>, reasons: seq<string>, k: nat)
    requires k < |ids| && Distinct(reasons)
    ensures Hits(ids, rmap, reasons, k) == if AbsentAt(ids, rmap, k) && rmap[ids[k]] in reasons then 1 else 0
  {
    if reasons != [] {
      var rest := reasons[1..];
      assert Distinct(rest) by {
        forall i, j | 0 <= i < j < |rest| ensures rest[i] != rest[j] {
          assert rest[i] == reasons[i + 1] && rest[j] == reasons[j + 1];
        }
      }
      HitsOfDistinct(ids, rmap, rest, k);
      if AbsentAt(ids, rmap, k) {
        var r := rmap[ids[k]];
        assert r in reasons <==> r == reasons[0] || r in rest;
        if r == reasons[0] {
          assert r !in rest by {
            forall j | 0 <= j < |rest| ensures rest[j] != r {
              assert rest[j] == reasons[j + 1];
            }
          }
        }
      }
    }
  }

  /** The counters of distinct reasons add up to the number of absent
      slots whose reason is among them: no slot is counted twice. */
  lemma {:induction false} TalliesSumToRecognised(ids: seq<string>, rmap: map<string, string>, reasons: seq<string>, n: nat)
    requires n <= |ids| && Distinct(reasons)
    ensures SumOfTallies(ids, rmap, reasons, n) == RecognisedTally(ids, rmap, reasons, n)
  {
    if n == 0 {
      ZeroSlotsNoTallies(ids, rmap, reasons);
    } else {
      TalliesSumToRecognised(ids, rmap, reasons, n - 1);
      SumOfTalliesStep(ids, rmap, reasons, n);
      HitsOfDistinct(ids, rmap, reasons, n - 1);
    }
  }

  lemma {:induction false} ZeroSlotsNoTallies(ids: seq<string>, rmap: map<string, string>, reasons: seq<string>)
    ensures SumOfTallies(ids, rmap, reasons, 0) == 0
  {
    if reasons != [] {
      ZeroSlotsNoTallies(ids, rmap, reasons[1..]);
    }
  }

  /** The twelve counters add up to the absent slots with a recognised
      reason, which are at most all absent slots: an unrecognised reason is
      marked but counted nowhere. */
  lemma CountersSumToRecognised(ids: seq<string>, rmap: map<string, string>)
    requires |ids| == SlotCount
    ensures SumOfTallies(ids, rmap, ReasonOptions, SlotCount) == RecognisedTally(ids, rmap, ReasonOptions, SlotCount)
    ensures RecognisedTally(ids, rmap, ReasonOptions, SlotCount) <= AbsentTally(ids, rmap, SlotCount)
  {
    ReasonTablesAgree();
    TalliesSumToRecognised(ids, rmap, ReasonOptions, SlotCount);
    RecognisedAtMostAbsent(ids, rmap, ReasonOptions, SlotCount);
  }

  lemma {:induction false} RecognisedAtMostAbsent(ids: seq<string>, rmap: map<string, string>, reasons: seq<string>, n: nat)
    requires n <= |ids|
    ensures RecognisedTally(ids, rmap, reasons, n) <= AbsentTally(ids, rmap, n)
  {
    if n > 0 {
      RecognisedAtMostAbsent(ids, rmap, reasons, n - 1);
    }
  }

  /** With no absentees every counter is zero, no slot is marked X, and
      every occupied slot is marked V. */
  lemma {:induction false} NoAbsenteesAllPresent(statuses: seq<Value>, olds: seq<Value>, ids: seq<string>, reason: string, n: nat)
    requires n <= |ids| == |statuses| == |olds| && Marked(statuses, olds, ids, map[])
    ensures Tally(ids, map[], reason, n) == 0
    ensures MarkCount(statuses, ids, AbsentMark, n) == 0
    ensures MarkCount(statuses, ids, PresentMark, n) == OccupiedTally(ids, n)
    ensures forall k :: 0 <= k < n && ids[k] != "" ==> statuses[k] == Text(PresentMark)
  {
    if n > 0 {
      NoAbsenteesAllPresent(statuses, olds, ids, reason, n - 1);
      assert statuses[n - 1] == StatusAfter(ids[n - 1], map[], olds[n - 1]);
    }
  }

  /** The number of slots among the first n whose status value is the
      absence mark and whose identifier's reason is `reason`. */
  function MarkedTally(statuses: seq<Value>, ids: seq<string>, rmap: map<string, string>, reason: string, n: nat): nat
    requires n <= |ids| == |statuses|
  {
    if n == 0 then 0
    else MarkedTally(statuses, ids, rmap, reason, n - 1)
         + if statuses[n - 1] == Text(AbsentMark) && ids[n - 1] in rmap && rmap[ids[n - 1]] == reason then 1 else 0
  }

  /** Each counter equals the number of X-marked slots with that reason,
      provided "" is not a key of the reason map (so an empty slot, whose
      old status is kept, is never taken for an absentee). */
  lemma {:induction false} TallyCountsMarks(statuses: seq<Value>, olds: seq<Value>, ids: seq<string>, rmap: map<string, string>, reason: string, n: nat)
    requires n <= |ids| == |statuses| == |olds|
    requires "" !in rmap && Marked(statuses, olds, ids, rmap)
    ensures MarkedTally(statuses, ids, rmap, reason, n) == Tally(ids, rmap, reason, n)
  {
    if n > 0 {
      TallyCountsMarks(statuses, olds, ids, rmap, reason, n - 1);
    }
  }
}

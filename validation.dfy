/** Validation of a submitted batch of identifiers against the valid set,
    and assembly of the absentee list from a batch that passed. */
module Validation {
  import opened Cells

  /** A rejected entry, tagged with its 1-based position in the batch and
      the stripped identifier. */
  datatype ValidationError =
    | FormatError(position: nat, id: string)
    | NotFound(position: nat, id: string)

  /** An absence entry: a stripped non-blank identifier and its reason. */
  datatype Absentee = Absentee(id: string, reason: string)

  /** A stripped entry passes when it is blank, or all digits and in the
      valid set. */
  predicate Accepted(eid: string, valid: set<string>) {
    eid == "" || (IsDigits(eid) && eid in valid)
  }

  /** Each submitted entry with its surrounding white space removed. */
  function StripAll(empIds: seq<string>): (cleaned: seq<string>)
    ensures |cleaned| == |empIds|
    ensures forall i :: 0 <= i < |empIds| ==> cleaned[i] == Strip(empIds[i])
  {
    seq(|empIds|, i requires 0 <= i < |empIds| => Strip(empIds[i]))
  }

  /** The errors the stripped entry `eid` at 1-based `position` produces:
      none when blank, a format error when not all digits, a not-found
      error when absent from the valid set. */
  function EntryErrors(eid: string, position: nat, valid: set<string>): (r: seq<ValidationError>)
    ensures |r| <= 1
    ensures r == [] <==> Accepted(eid, valid)
    ensures r != [] ==> r[0].position == position && r[0].id == eid
    ensures r != [] ==> (r[0].FormatError? <==> !IsDigits(eid))
  {
    if eid == "" then []
    else if !IsDigits(eid) then [FormatError(position, eid)]
    else if eid !in valid then [NotFound(position, eid)]
    else []
  }

  /** The errors of the first `n` stripped entries, in position order. */
  function ErrorsUpTo(cleaned: seq<string>, valid: set<string>, n: nat): seq<ValidationError>
    requires n <= |cleaned|
  {
    if n == 0 then [] else ErrorsUpTo(cleaned, valid, n - 1) + EntryErrors(cleaned[n - 1], n, valid)
  }

  /** The errors of a whole submitted batch. */
  function BatchErrors(empIds: seq<string>, valid: set<string>): seq<ValidationError> {
    ErrorsUpTo(StripAll(empIds), valid, |empIds|)
  }

  /** The validation loop of the submission handler: strip each entry,
      skip a blank one, reject a non-digit one, reject one missing from the
      valid set, and keep every stripped entry. */
  method Validate(empIds: seq<string>, valid: set<string>) returns (errors: seq<ValidationError>, cleaned: seq<string>)
    ensures cleaned == StripAll(empIds)
    ensures errors == BatchErrors(empIds, valid)
  {
    errors, cleaned := [], [];
    var i := 0;
    while i < |empIds|
      invariant i <= |empIds| && ValidatedUpTo(empIds, valid, i, errors, cleaned)
    {
      var eid, entry := CheckEntry(empIds[i], i + 1, valid);
      ValidatedStep(empIds, valid, i, errors, cleaned);
      errors := errors + entry;
      cleaned := cleaned + [eid];
      i := i + 1;
    }
    assert StripAll(empIds)[..|empIds|] == StripAll(empIds);
  }

  /** The loop's state after the first i entries: the stripped entries so
      far and their errors. */
  ghost predicate ValidatedUpTo(empIds: seq<string>, valid: set<string>, i: nat,
                                errors: seq<ValidationError>, cleaned: seq<string>)
    requires i <= |empIds|
  {
    cleaned == StripAll(empIds)[..i] && errors == ErrorsUpTo(StripAll(empIds), valid, i)
  }

  /** One iteration extends the stripped entries by the next one and the
      errors by its errors. */
  lemma ValidatedStep(empIds: seq<string>, valid: set<string>, i: nat, errors: seq<ValidationError>, cleaned: seq<string>)
    requires i < |empIds| && ValidatedUpTo(empIds, valid, i, errors, cleaned)
    ensures ValidatedUpTo(empIds, valid, i + 1, errors + EntryErrors(Strip(empIds[i]), i + 1, valid),
                          cleaned + [Strip(empIds[i])])
  {
    var all := StripAll(empIds);
    assert all[..i + 1] == all[..i] + [all[i]];
  }

  /** One submitted entry: strip it; a blank entry passes, a non-blank one
      goes through the digits-only format check and then the membership
      check against the valid set. */
  method CheckEntry(raw: string, position: nat, valid: set<string>) returns (eid: string, entry: seq<ValidationError>)
    ensures eid == Strip(raw)
    ensures entry == EntryErrors(eid, position, valid)
  {
    eid := Strip(raw);
    if eid == "" {
      entry := [];
    } else if !IsDigits(eid) {
      entry := [FormatError(position, eid)];
    } else if eid !in valid {
      entry := [NotFound(position, eid)];
    } else {
      entry := [];
    }
  }

  /** Every error of the first n entries carries a position in 1..n. */
  lemma {:induction false} ErrorPositions(cleaned: seq<string>, valid: set<string>, n: nat)
    requires n <= |cleaned|
    ensures forall j :: 0 <= j < |ErrorsUpTo(cleaned, valid, n)| ==> 1 <= ErrorsUpTo(cleaned, valid, n)[j].position <= n
  {
    if n > 0 {
      ErrorPositions(cleaned, valid, n - 1);
    }
  }

  /** Errors come in strictly increasing position order, so no entry is
      reported twice. */
  lemma {:induction false} ErrorsOrdered(cleaned: seq<string>, valid: set<string>, n: nat)
    requires n <= |cleaned|
    ensures forall j, k :: 0 <= j < k < |ErrorsUpTo(cleaned, valid, n)| ==>
              ErrorsUpTo(cleaned, valid, n)[j].position < ErrorsUpTo(cleaned, valid, n)[k].position
  {
    if n > 0 {
      ErrorsOrdered(cleaned, valid, n - 1);
      ErrorPositions(cleaned, valid, n - 1);
    }
  }

  /** The errors reported at position p are exactly those of entry p. */
  lemma {:induction false} ErrorsAtPosition(cleaned: seq<string>, valid: set<string>, n: nat, p: nat)
    requires n <= |cleaned| && 1 <= p <= n
    ensures forall e :: e in ErrorsUpTo(cleaned, valid, n) && e.position == p ==> [e] == EntryErrors(cleaned[p - 1], p, valid)
    ensures EntryErrors(cleaned[p - 1], p, valid) != [] ==> EntryErrors(cleaned[p - 1], p, valid)[0] in ErrorsUpTo(cleaned, valid, n)
  {
    if p < n {
      ErrorsAtPosition(cleaned, valid, n - 1, p);
    }
    ErrorPositions(cleaned, valid, n - 1);
    var prev := ErrorsUpTo(cleaned, valid, n - 1);
    assert ErrorsUpTo(cleaned, valid, n) == prev + EntryErrors(cleaned[n - 1], n, valid);
    forall e | e in ErrorsUpTo(cleaned, valid, n) && e.position == p
      ensures [e] == EntryErrors(cleaned[p - 1], p, valid)
    {
      if e in prev {
        assert p < n;
      }
    }
  }

  /** The batch passes exactly when every stripped entry is accepted: an
      error names the position of an entry that is not accepted, and an
      entry that is not accepted has its error in the list. */
  lemma NoErrorsIff(cleaned: seq<string>, valid: set<string>, n: nat)
    requires n <= |cleaned|
    ensures ErrorsUpTo(cleaned, valid, n) == [] <==> forall i :: 0 <= i < n ==> Accepted(cleaned[i], valid)
  {
    var errors := ErrorsUpTo(cleaned, valid, n);
    if errors != [] {
      var e := errors[0];
      ErrorPositions(cleaned, valid, n);
      ErrorsAtPosition(cleaned, valid, n, e.position);
      assert !Accepted(cleaned[e.position - 1], valid);
    } else {
      forall i | 0 <= i < n ensures Accepted(cleaned[i], valid) {
        ErrorsAtPosition(cleaned, valid, n, i + 1);
      }
    }
  }

  // ---------------------------------------------------------------------
  // Absentee assembly
  // ---------------------------------------------------------------------

  /** The indices below `n` whose entry is non-blank, in increasing order. */
  function NonBlankIndices(cleaned: seq<string>, n: nat): (r: seq<nat>)
    requires n <= |cleaned|
    ensures forall j :: 0 <= j < |r| ==> r[j] < n
  {
    if n == 0 then []
    else NonBlankIndices(cleaned, n - 1) + if Strip(cleaned[n - 1]) != "" then [n - 1] else []
  }

  /** Every index names a non-blank entry. */
  lemma {:induction false} NonBlankIndicesNonBlank(cleaned: seq<string>, n: nat)
    requires n <= |cleaned|
    ensures forall j :: 0 <= j < |NonBlankIndices(cleaned, n)| ==> Strip(cleaned[NonBlankIndices(cleaned, n)[j]]) != ""
  {
    if n > 0 {
      NonBlankIndicesNonBlank(cleaned, n - 1);
    }
  }

  /** The indices are in increasing order, so each appears once. */
  lemma {:induction false} NonBlankIndicesIncreasing(cleaned: seq<string>, n: nat)
    requires n <= |cleaned|
    ensures forall j, k :: 0 <= j < k < |NonBlankIndices(cleaned, n)| ==> NonBlankIndices(cleaned, n)[j] < NonBlankIndices(cleaned, n)[k]
  {
    if n > 0 {
      NonBlankIndicesIncreasing(cleaned, n - 1);
    }
  }

  /** Every non-blank entry below n has its index listed. */
  lemma {:induction false} NonBlankIndicesComplete(cleaned: seq<string>, n: nat)
    requires n <= |cleaned|
    ensures forall i :: 0 <= i < n && Strip(cleaned[i]) != "" ==> i in NonBlankIndices(cleaned, n)
  {
    if n > 0 {
      NonBlankIndicesComplete(cleaned, n - 1);
    }
  }

  /** The absentee list: each non-blank entry, in submission order, paired
      with the reason at the same index. None stands for the IndexError
      raised when a non-blank entry has no reason. */
  function AssembleAbsentees(cleaned: seq<string>, reasons: seq<string>): (r: Option<seq<Absentee>>)
    ensures r.None? <==> exists i :: 0 <= i < |cleaned| && Strip(cleaned[i]) != "" && i >= |reasons|
    ensures r.Some? ==>
              var idx := NonBlankIndices(cleaned, |cleaned|);
              |r.value| == |idx| &&
              forall j :: 0 <= j < |idx| ==> idx[j] < |reasons| && r.value[j] == Absentee(cleaned[idx[j]], reasons[idx[j]])
  {
    var idx := NonBlankIndices(cleaned, |cleaned|);
    NonBlankIndicesNonBlank(cleaned, |cleaned|);
    NonBlankIndicesComplete(cleaned, |cleaned|);
    if exists j :: 0 <= j < |idx| && idx[j] >= |reasons| then None
    else Some(seq(|idx|, j requires 0 <= j < |idx| => Absentee(cleaned[idx[j]], reasons[idx[j]])))
  }

  /** After a batch passed validation, every absentee's identifier is a
      stripped, all-digit member of the valid set. */
  lemma ValidatedAbsentees(empIds: seq<string>, reasons: seq<string>, valid: set<string>, cleaned: seq<string>)
    requires cleaned == StripAll(empIds)
    requires BatchErrors(empIds, valid) == []
    requires AssembleAbsentees(cleaned, reasons).Some?
    ensures forall a :: a in AssembleAbsentees(cleaned, reasons).value ==>
              Strip(a.id) == a.id && IsDigits(a.id) && a.id in valid
  {
    NoErrorsIff(cleaned, valid, |cleaned|);
    var abs := AssembleAbsentees(cleaned, reasons).value;
    var idx := NonBlankIndices(cleaned, |cleaned|);
    NonBlankIndicesNonBlank(cleaned, |cleaned|);
    forall a | a in abs ensures Strip(a.id) == a.id && IsDigits(a.id) && a.id in valid {
      var j :| 0 <= j < |abs| && abs[j] == a;
      var i := idx[j];
      StripIdempotent(empIds[i]);
      assert Accepted(cleaned[i], valid);
    }
  }
}

/** Schema checks of the two input tables (validation.py): each returns true
    or raises InvalidDataSetException; neither ever returns false. */
module Validation {
  import opened Exceptions
  import opened Frames
  import opened Numerals

  /** The six identifier columns that open every L table, in order. */
  const LColumnNames: seq<string> :=
    ["barcode", "cell_line_name", "compound_name", "2D_3D", "dosage", "time"]
  const DosageColumn: nat := 4
  const TimeColumn: nat := 5

  const DosageMessage := "Dosage values are invalid, need to add unit of measurement"
  const TimeMessage := "Time values are invalid, need to add unit of measurement"
  const UidMessage := "column 0 should be 'UID'"

  /** Column `i` exists and carries its expected name. */
  predicate NameOk(columns: seq<Label>, i: nat)
    requires i < 6
  {
    i < |columns| && columns[i] == Name(LColumnNames[i])
  }

  /** The header starts with the six identifier columns. */
  predicate HeaderOk(columns: seq<Label>) {
    |columns| >= 6 && forall i :: 0 <= i < 6 ==> NameOk(columns, i)
  }

  /** The message raised for a wrong name at position `i`, numbered by the
      position it reports on. */
  function NameMessage(i: nat): string
    requires i < 6
  {
    "column " + Show(i) + " should be '" + LColumnNames[i] + "'"
  }

  /** The position numbers written into the six messages of validation.py,
      in check order. */
  const WrittenPositions: seq<string> := ["0", "1", "2", "3", "3", "4"]

  /** The messages exactly as validation.py words them: the last two give
      the wrong position. */
  function NameMessageAsWritten(i: nat): string
    requires i < 6
  {
    "column " + WrittenPositions[i] + " should be '" + LColumnNames[i] + "'"
  }

  /** What the name check at position `i` raises when it fails: the
      message as validation.py words it, or an IndexError when reading
      `df.columns[i]` runs past the end. */
  function NameError(columns: seq<Label>, i: nat): (r: Exception)
    requires i < 6
    ensures r == IndexError <==> i >= |columns|
    ensures r.InvalidDataSetException? ==> r.message == NameMessageAsWritten(i)
    ensures r.InvalidDataSetException? && i < 4 ==> r.message == NameMessage(i)
  {
    if i < |columns| then
      NameMessageAsWrittenRightBeforeDosage(i);
      InvalidDataSetException(NameMessageAsWritten(i))
    else IndexError
  }

  /** The name checks from position `i` on, in index order; the first one
      that fails decides the exception. */
  function CheckNames(columns: seq<Label>, i: nat): (r: Option<Exception>)
    requires i <= 6
    ensures r.None? <==> forall k :: i <= k < 6 ==> NameOk(columns, k)
    ensures forall k :: i <= k < 6 && !NameOk(columns, k)
              && (forall m :: i <= m < k ==> NameOk(columns, m))
              ==> r == Some(NameError(columns, k))
    decreases 6 - i
  {
    if i == 6 then None
    else if !NameOk(columns, i) then Some(NameError(columns, i))
    else CheckNames(columns, i + 1)
  }

  predicate AllText(cells: seq<Cell>) {
    forall k :: 0 <= k < |cells| ==> cells[k].Str?
  }

  /** is_valid_L: the header names in order, then every dosage cell and
      every time cell must be a string. */
  function IsValidL(t: Table): (r: Result<bool>)
    requires WellFormed(t)
    ensures r.Ok? ==> r.value
    ensures r.Ok? <==> HeaderOk(t.columns)
                       && AllText(Column(t, DosageColumn)) && AllText(Column(t, TimeColumn))
    ensures forall k :: 0 <= k < 6 && !NameOk(t.columns, k)
              && (forall m :: 0 <= m < k ==> NameOk(t.columns, m))
              ==> r == Err(NameError(t.columns, k))
    ensures (HeaderOk(t.columns) && !AllText(Column(t, DosageColumn)))
              ==> r == Err(InvalidDataSetException(DosageMessage))
    ensures (HeaderOk(t.columns) && AllText(Column(t, DosageColumn)) && !AllText(Column(t, TimeColumn)))
              ==> r == Err(InvalidDataSetException(TimeMessage))
  {
    match CheckNames(t.columns, 0)
    case Some(e) => Err(e)
    case None =>
      assert NameOk(t.columns, TimeColumn);
      if !AllText(Column(t, DosageColumn)) then Err(InvalidDataSetException(DosageMessage))
      else if !AllText(Column(t, TimeColumn)) then Err(InvalidDataSetException(TimeMessage))
      else Ok(true)
  }

  /** is_valid_G: only the first column is constrained, and it must be UID. */
  function IsValidG(t: Table): (r: Result<bool>)
    ensures r.Ok? ==> r.value
    ensures r.Ok? <==> |t.columns| > 0 && t.columns[0] == Name("UID")
    ensures |t.columns| == 0 ==> r == Err(IndexError)
    ensures |t.columns| > 0 && t.columns[0] != Name("UID") ==> r == Err(InvalidDataSetException(UidMessage))
  {
    if |t.columns| == 0 then Err(IndexError)
    else if t.columns[0] != Name("UID") then Err(InvalidDataSetException(UidMessage))
    else Ok(true)
  }

  /** Columns after `time` are unconstrained: two tables that agree on the
      six identifier labels and on the dosage and time cells are judged
      alike, whatever else they hold. */
  lemma ExtraColumnsUnconstrained(t: Table, u: Table)
    requires WellFormed(t) && WellFormed(u)
    requires |t.columns| >= 6 && |u.columns| >= 6 && t.columns[..6] == u.columns[..6]
    requires Column(t, DosageColumn) == Column(u, DosageColumn)
    requires Column(t, TimeColumn) == Column(u, TimeColumn)
    ensures IsValidL(t) == IsValidL(u)
  {
    forall k | 0 <= k < 6 ensures NameOk(t.columns, k) == NameOk(u.columns, k) {
      assert t.columns[..6][k] == u.columns[..6][k];
    }
    CheckNamesAgree(t.columns, u.columns, 0);
  }

  lemma {:induction false} CheckNamesAgree(a: seq<Label>, b: seq<Label>, i: nat)
    requires i <= 6
    requires forall k :: 0 <= k < 6 ==> NameOk(a, k) == NameOk(b, k)
    requires |a| >= 6 && |b| >= 6 && a[..6] == b[..6]
    ensures CheckNames(a, i) == CheckNames(b, i)
    decreases 6 - i
  {
    if i < 6 {
      assert a[..6][i] == b[..6][i];
      CheckNamesAgree(a, b, i + 1);
    }
  }

  /** The number a name message reports: its first run of digits. */
  function ReportedPosition(message: string): nat {
    DigitsValue(FirstDigitRun(message))
  }

  /** The number reported by a message of the shape "column <d><rest>". */
  lemma {:induction false} ReportedPositionOf(d: string, rest: string, m: string)
    requires |d| > 0 && AllDigits(d) && (|rest| == 0 || !IsDigit(rest[0]))
    requires m == "column " + (d + rest)
    ensures ReportedPosition(m) == DigitsValue(d)
  {
    DigitStartAfter("column ", d + rest);
    assert m[|"column "|..] == d + rest;
    LeadingDigitsOfNumeral(d, rest);
  }

  /** Corrected messages report the position that failed the check. */
  lemma NameMessageReportsPosition(i: nat)
    requires i < 6
    ensures ReportedPosition(NameMessage(i)) == i
  {
    ReportedPositionOf(Show(i), " should be '" + LColumnNames[i] + "'", NameMessage(i));
    ShowRoundTrip(i);
  }

  /** The message as written for `dosage` (position 4) reports position 3. */
  lemma DosageNameMessageMisnumbered()
    ensures ReportedPosition(NameMessageAsWritten(4)) == 3
  {
    ReportedPositionOf("3", " should be '" + LColumnNames[4] + "'", NameMessageAsWritten(4));
    assert "3"[..0] == [];
  }

  /** The message as written for `time` (position 5) reports position 4. */
  lemma TimeNameMessageMisnumbered()
    ensures ReportedPosition(NameMessageAsWritten(5)) == 4
  {
    ReportedPositionOf("4", " should be '" + LColumnNames[5] + "'", NameMessageAsWritten(5));
    assert "4"[..0] == [];
  }

  /** A header right up to `compound_name`/`2D_3D` but wrong at `dosage`
      makes is_valid_L blame position 3, which passed its check. */
  lemma IsValidLMisreportsDosage(t: Table)
    requires WellFormed(t)
    requires forall m :: 0 <= m < DosageColumn ==> NameOk(t.columns, m)
    requires DosageColumn < |t.columns| && !NameOk(t.columns, DosageColumn)
    ensures IsValidL(t).Err? && IsValidL(t).error.InvalidDataSetException?
    ensures ReportedPosition(IsValidL(t).error.message) == 3
  {
    assert IsValidL(t) == Err(NameError(t.columns, DosageColumn));
    DosageNameMessageMisnumbered();
  }

  /** The first four messages as written are the corrected ones. */
  lemma NameMessageAsWrittenRightBeforeDosage(i: nat)
    requires i < 6
    ensures i < 4 ==> NameMessageAsWritten(i) == NameMessage(i)
  {
    if i < 4 {
      assert Show(i) == [DigitChar(i)];
    }
  }
}

/** The name of the output sheet of one analysis pass: the cell line, a
    suffix naming the two pass flags, and the fixed column. */
module SheetNames {
  import opened Exceptions

  /** The four suffixes, one per combination of (only_avg, control_treatment). */
  const BothSuffix := "_CT_AVG_by_"
  const ControlSuffix := "_CT_by_"
  const AverageSuffix := "_AVG_by_"
  const PlainSuffix := "_by_"

  predicate IsSuffix(m: string) {
    m == BothSuffix || m == ControlSuffix || m == AverageSuffix || m == PlainSuffix
  }

  /** get_sheet_name, branch by branch. */
  function GetSheetName(cellName: string, onlyAvg: bool, controlTreatment: bool, fixedCol: string): (r: string)
    ensures |r| >= |cellName| + |fixedCol|
    ensures r[..|cellName|] == cellName && r[|r| - |fixedCol|..] == fixedCol
    ensures IsSuffix(r[|cellName|..|r| - |fixedCol|])
  {
    if onlyAvg && controlTreatment then cellName + BothSuffix + fixedCol
    else if !onlyAvg && controlTreatment then cellName + ControlSuffix + fixedCol
    else if onlyAvg && !controlTreatment then cellName + AverageSuffix + fixedCol
    else cellName + PlainSuffix + fixedCol
  }

  /** A reference reading of the naming scheme: `_CT` marks the control
      treatment, `_AVG` marks the averages-only pass, in that order, and
      `_by_` always precedes the fixed column. */
  function ReferenceName(cellName: string, onlyAvg: bool, controlTreatment: bool, fixedCol: string): string {
    cellName + (if controlTreatment then "_CT" else "") + (if onlyAvg then "_AVG" else "") + "_by_" + fixedCol
  }

  lemma GetSheetNameIsReference(cellName: string, onlyAvg: bool, controlTreatment: bool, fixedCol: string)
    ensures GetSheetName(cellName, onlyAvg, controlTreatment, fixedCol)
         == ReferenceName(cellName, onlyAvg, controlTreatment, fixedCol)
  {
  }

  /** Reads the flags back from the suffix of a sheet name, given the cell
      line and the fixed column it was made from. */
  function DecodeFlags(name: string, cellName: string, fixedCol: string): (r: Option<(bool, bool)>)
    ensures r.Some? ==> |name| >= |cellName| + |fixedCol| && IsSuffix(name[|cellName|..|name| - |fixedCol|])
  {
    if |name| < |cellName| + |fixedCol| || name[..|cellName|] != cellName
       || name[|name| - |fixedCol|..] != fixedCol then None
    else
      var m := name[|cellName|..|name| - |fixedCol|];
      if m == BothSuffix then Some((true, true))
      else if m == ControlSuffix then Some((false, true))
      else if m == AverageSuffix then Some((true, false))
      else if m == PlainSuffix then Some((false, false))
      else None
  }

  lemma Reassemble(name: string, cellName: string, fixedCol: string)
    requires |name| >= |cellName| + |fixedCol|
    requires name[..|cellName|] == cellName && name[|name| - |fixedCol|..] == fixedCol
    ensures name == cellName + name[|cellName|..|name| - |fixedCol|] + fixedCol
  {
    var m := name[|cellName|..|name| - |fixedCol|];
    assert name == name[..|cellName|] + m + name[|name| - |fixedCol|..];
  }

  lemma MiddleOf(cellName: string, m: string, fixedCol: string)
    ensures var n := cellName + m + fixedCol;
      n[..|cellName|] == cellName && n[|n| - |fixedCol|..] == fixedCol
      && n[|cellName|..|n| - |fixedCol|] == m
  {
    var n := cellName + m + fixedCol;
    assert n[..|cellName|] == cellName;
    assert n[|n| - |fixedCol|..] == fixedCol;
    assert n[|cellName|..|n| - |fixedCol|] == m;
  }

  /** The flags are recoverable from the sheet name. */
  lemma DecodeGetSheetName(cellName: string, onlyAvg: bool, controlTreatment: bool, fixedCol: string)
    ensures DecodeFlags(GetSheetName(cellName, onlyAvg, controlTreatment, fixedCol), cellName, fixedCol)
         == Some((onlyAvg, controlTreatment))
  {
    var n := GetSheetName(cellName, onlyAvg, controlTreatment, fixedCol);
    var m := n[|cellName|..|n| - |fixedCol|];
    Reassemble(n, cellName, fixedCol);
    MiddleOf(cellName, m, fixedCol);
  }

  /** Conversely, every name that decodes is the sheet name of its flags. */
  lemma DecodedIsSheetName(name: string, cellName: string, fixedCol: string)
    requires DecodeFlags(name, cellName, fixedCol).Some?
    ensures var (a, c) := DecodeFlags(name, cellName, fixedCol).value;
      name == GetSheetName(cellName, a, c, fixedCol)
  {
    Reassemble(name, cellName, fixedCol);
  }

  /** For one cell line and fixed column, different flags give different
      sheet names, so no pass overwrites another's sheet. */
  lemma SheetNamesDistinct(cellName: string, fixedCol: string, a: bool, c: bool, a': bool, c': bool)
    requires GetSheetName(cellName, a, c, fixedCol) == GetSheetName(cellName, a', c', fixedCol)
    ensures a == a' && c == c'
  {
    DecodeGetSheetName(cellName, a, c, fixedCol);
    DecodeGetSheetName(cellName, a', c', fixedCol);
  }
}

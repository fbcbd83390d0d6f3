/**
 * The filter stage of carregar_dados_com_filtro: the masks
 * str.contains(fragment, case=False, na=False) over one column of the
 * concatenated table, applied one after the other and keeping the rows
 * whose mask is true, in their original order.
 *
 * Case-insensitive comparison is modelled by a character fold passed in by
 * the caller, and containment as a plain substring test.
 */
module Filter {
  import opened Wrappers
  import opened Sheet
  import opened Extractor

  const CityLabel: string := "Cidade de Atuação"
  const CargoLabel: string := "Cargo"

  /** The column the loader adds to every block after labelling it. */
  const CompanyLabel: string := "empresa"

  /** Position of the first column carrying a label, if any does. */
  function LabelIndex(labels: Row, key: Cell): (i: Option<nat>)
    ensures i.Some? ==> i.value < |labels| && labels[i.value] == key
    ensures i.Some? ==> forall k :: 0 <= k < i.value ==> labels[k] != key
    ensures i.None? <==> key !in labels
  {
    if labels == [] then None
    else if labels[0] == key then Some(0)
    else match LabelIndex(labels[1..], key)
      case Some(j) => Some(j + 1)
      case None => None
  }

  /**
   * The value of a record in a column; a column the record's block does not
   * have reads as empty (NaN). The empresa column is assigned after the header
   * labels, so it hides a header cell of the same name; a company of None
   * reads as missing too.
   */
  function Lookup(r: Record, column: string): (c: Cell)
    ensures column == CompanyLabel && r.empresa.Some? ==> c == r.empresa.value
    ensures column != CompanyLabel && Text(column) !in r.labels ==> c == Empty
    ensures forall i ::
              (column != CompanyLabel && 0 <= i < |r.labels| && r.labels[i] == Text(column)
               && (forall k :: 0 <= k < i ==> r.labels[k] != Text(column)))
              ==> c == At(r.values, i)
  {
    if column == CompanyLabel then
      match r.empresa
      case Some(c) => c
      case None => Empty
    else
      match LabelIndex(r.labels, Text(column))
      case Some(i) => At(r.values, i)
      case None => Empty
  }

  /** A string with every character folded, for case-insensitive comparison. */
  function Folded(s: string, fold: char -> char): (t: string)
  {
    seq(|s|, i requires 0 <= i < |s| => fold(s[i]))
  }

  /** needle occurs in hay as a contiguous substring. */
  predicate Contains(hay: string, needle: string)
  {
    exists i :: 0 <= i && i + |needle| <= |hay| && hay[i..][..|needle|] == needle
  }

  /**
   * The mask of one filter on one record: the column holds a string that
   * contains the fragment, both folded. Numbers and missing values are never
   * matched.
   */
  predicate Matches(r: Record, column: string, fragment: string, fold: char -> char)
    ensures Matches(r, column, fragment, fold) ==>
              Lookup(r, column).Text? && |fragment| <= |Lookup(r, column).s|
  {
    var v := Lookup(r, column);
    v.Text? && Contains(Folded(v.s, fold), Folded(fragment, fold))
  }

  /** The records whose mask is true, in their original order. */
  function Keep(records: seq<Record>, column: string, fragment: string, fold: char -> char): (out: seq<Record>)
    ensures |out| <= |records|
    ensures forall r :: r in out ==> r in records && Matches(r, column, fragment, fold)
    ensures forall r :: r in records && Matches(r, column, fragment, fold) ==> r in out
  {
    if records == [] then []
    else if Matches(records[0], column, fragment, fold) then
      [records[0]] + Keep(records[1..], column, fragment, fold)
    else
      Keep(records[1..], column, fragment, fold)
  }

  /** idx lists, in increasing order, the positions of s from which sub is taken. */
  ghost predicate Selects<T>(sub: seq<T>, s: seq<T>, idx: seq<nat>)
  {
    && |idx| == |sub|
    && (forall i :: 0 <= i < |idx| ==> idx[i] < |s| && sub[i] == s[idx[i]])
    && (forall i, j :: 0 <= i < j < |idx| ==> idx[i] < idx[j])
  }

  /** The positions idx, each moved one place to the right. */
  function Shift(idx: seq<nat>): seq<nat>
  {
    seq(|idx|, i requires 0 <= i < |idx| => idx[i] + 1)
  }

  lemma ShiftSelects<T>(sub: seq<T>, s: seq<T>, idx: seq<nat>)
    requires s != [] && Selects(sub, s[1..], idx)
    ensures Selects(sub, s, Shift(idx))
    ensures 0 !in Shift(idx)
    ensures forall j :: 1 <= j < |s| ==> (j in Shift(idx) <==> j - 1 in idx)
  {
  }

  lemma ConsSelects<T>(x: T, sub: seq<T>, s: seq<T>, idx: seq<nat>)
    requires s != [] && s[0] == x && Selects(sub, s, idx) && 0 !in idx
    ensures Selects([x] + sub, s, [0] + idx)
  {
  }

  /**
   * The filter is stable and exact: its result is the subsequence of the
   * records taken at precisely the positions whose mask is true.
   */
  lemma {:induction false} KeepPositions(records: seq<Record>, column: string, fragment: string, fold: char -> char)
    returns (idx: seq<nat>)
    ensures Selects(Keep(records, column, fragment, fold), records, idx)
    ensures forall j :: 0 <= j < |records| ==> (j in idx <==> Matches(records[j], column, fragment, fold))
  {
    if records == [] {
      idx := [];
    } else {
      var rest := KeepPositions(records[1..], column, fragment, fold);
      ShiftSelects(Keep(records[1..], column, fragment, fold), records, rest);
      if Matches(records[0], column, fragment, fold) {
        ConsSelects(records[0], Keep(records[1..], column, fragment, fold), records, Shift(rest));
        idx := [0] + Shift(rest);
      } else {
        idx := Shift(rest);
      }
      forall j | 1 <= j < |records|
        ensures j in idx <==> Matches(records[j], column, fragment, fold)
      {
        assert records[j] == records[1..][j - 1];
      }
    }
  }

  /** A filter every record passes returns the records unchanged. */
  lemma {:induction false} KeepAll(records: seq<Record>, column: string, fragment: string, fold: char -> char)
    requires forall r :: r in records ==> Matches(r, column, fragment, fold)
    ensures Keep(records, column, fragment, fold) == records
  {
    if records != [] {
      KeepAll(records[1..], column, fragment, fold);
    }
  }

  /**
   * Applying two filters one after the other does not depend on their order:
   * the combination is the conjunction of the two masks.
   */
  lemma {:induction false} KeepCommutes(records: seq<Record>, c1: string, f1: string, c2: string, f2: string, fold: char -> char)
    ensures Keep(Keep(records, c1, f1, fold), c2, f2, fold) == Keep(Keep(records, c2, f2, fold), c1, f1, fold)
  {
    if records != [] {
      KeepCommutes(records[1..], c1, f1, c2, f2, fold);
    }
  }

  /** A record whose block has no such column, or whose cell there is not a string, is never kept. */
  lemma MissingValueNeverMatches(r: Record, column: string, fragment: string, fold: char -> char)
    requires column != CompanyLabel
    requires Text(column) !in r.labels || !At(r.values, LabelIndex(r.labels, Text(column)).value).Text?
    ensures !Matches(r, column, fragment, fold)
  {
  }
}

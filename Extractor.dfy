/**
 * The block extractor of carregar_dados_com_filtro: one top-to-bottom pass
 * over the rows that cuts out every block lying between a header row and the
 * total row that closes it, labels its rows with that header and tags them
 * with the current company.
 *
 * The scan itself is the method ExtractBlocks. What it must produce is given
 * declaratively by Spans: a total row at index t closes a block exactly when
 * some header row h < t is followed by no header or total row before t, and
 * the block is then rows h+1 .. t-1, labelled by row h and tagged with cell 1
 * of the latest company row before t.
 */
module Extractor {
  import opened Wrappers
  import opened Sheet

  /** One closed block, as the scan appends it: the header, the sliced rows, the company. */
  datatype Block = Block(header: Row, rows: seq<Row>, empresa: Option<Cell>)

  /**
   * One record of the concatenated table: field i of values is labelled
   * labels[i], and the extra column empresa holds the company.
   */
  datatype Record = Record(labels: Row, values: Row, empresa: Option<Cell>)

  /** The indices of the header row and of the total row of one closed block. */
  datatype Span = Span(header: nat, total: nat)

  /** Row h is a header row and no header or total row follows it before row n. */
  ghost predicate OpenedAt(rows: seq<Row>, h: nat, n: nat)
    requires n <= |rows|
  {
    h < n && IsHeader(rows[h]) && forall k :: h < k < n ==> Plain(rows[k])
  }

  /** Row j is the latest company row before row n. */
  ghost predicate LatestCompanyRow(rows: seq<Row>, j: nat, n: nat)
    requires n <= |rows|
  {
    j < n && IsCompany(rows[j]) && forall k :: j < k < n ==> !IsCompany(rows[k])
  }

  /** The header row of the block still open when row n is reached, if any. */
  function LatestOpenHeader(rows: seq<Row>, n: nat): (h: Option<nat>)
    requires n <= |rows|
    ensures h.Some? ==> h.value < n && IsHeader(rows[h.value])
  {
    if n == 0 then None
    else if IsTotal(rows[n - 1]) then None
    else if IsHeader(rows[n - 1]) then Some(n - 1)
    else LatestOpenHeader(rows, n - 1)
  }

  /** Cell 1 of the latest company row before row n, or None when there is none. */
  function CompanyAt(rows: seq<Row>, n: nat): (c: Option<Cell>)
    requires n <= |rows|
    ensures c.Some? ==> exists j :: 0 <= j < n && IsCompany(rows[j]) && c.value == At(rows[j], 1)
  {
    if n == 0 then None
    else if IsCompany(rows[n - 1]) then Some(At(rows[n - 1], 1))
    else CompanyAt(rows, n - 1)
  }

  /** The blocks closed by total rows before row n, in sheet order. */
  function Spans(rows: seq<Row>, n: nat): (sp: seq<Span>)
    requires n <= |rows|
    ensures forall i :: 0 <= i < |sp| ==> sp[i].header < sp[i].total < n
  {
    if n == 0 then []
    else
      var prev := Spans(rows, n - 1);
      var open := LatestOpenHeader(rows, n - 1);
      if IsTotal(rows[n - 1]) && open.Some? then prev + [Span(open.value, n - 1)]
      else prev
  }

  predicate WithinSheet(rows: seq<Row>, spans: seq<Span>)
  {
    forall i :: 0 <= i < |spans| ==> spans[i].header < spans[i].total < |rows|
  }

  function BlockOf(rows: seq<Row>, sp: Span): (b: Block)
    requires sp.header < sp.total < |rows|
  {
    Block(rows[sp.header], rows[sp.header + 1 .. sp.total], CompanyAt(rows, sp.total))
  }

  function BlocksOf(rows: seq<Row>, spans: seq<Span>): (blocks: seq<Block>)
    requires WithinSheet(rows, spans)
  {
    seq(|spans|, i requires 0 <= i < |spans| => BlockOf(rows, spans[i]))
  }

  /** The blocks the whole pass emits. */
  function Extracted(rows: seq<Row>): (blocks: seq<Block>)
  {
    BlocksOf(rows, Spans(rows, |rows|))
  }

  /** The rows of one block, each labelled positionally with the block's header. */
  function RecordsOf(b: Block): (recs: seq<Record>)
    ensures |recs| == |b.rows|
    ensures forall r :: r in recs ==> r.labels == b.header && r.values in b.rows && r.empresa == b.empresa
  {
    seq(|b.rows|, i requires 0 <= i < |b.rows| => Record(b.header, b.rows[i], b.empresa))
  }

  /**
   * The concatenation of the blocks' records, in block order: every record is
   * a row of one block, labelled by that block's header and tagged with its
   * company.
   */
  function Flatten(blocks: seq<Block>): (recs: seq<Record>)
    ensures forall r :: r in recs ==>
              exists i :: (0 <= i < |blocks| && r.labels == blocks[i].header
                           && r.values in blocks[i].rows && r.empresa == blocks[i].empresa)
  {
    if blocks == [] then []
    else
      assert forall i :: 0 <= i < |blocks| - 1 ==> blocks[1..][i] == blocks[i + 1];
      RecordsOf(blocks[0]) + Flatten(blocks[1..])
  }

  /** Number of rows strictly between the header and the total row of each span. */
  function BodySize(spans: seq<Span>): (size: int)
  {
    if spans == [] then 0 else spans[0].total - spans[0].header - 1 + BodySize(spans[1..])
  }

  /**
   * The scan of app.py: it keeps the current company, the start of the open
   * block and the last header, and appends one block per total row that
   * closes an open block.
   */
  method ExtractBlocks(rows: seq<Row>) returns (blocks: seq<Block>)
    ensures blocks == Extracted(rows)
  {
    blocks := [];
    var empresa: Option<Cell> := None;
    var start: Option<nat> := None;
    var header: Row := [];
    for idx := 0 to |rows|
      invariant empresa == CompanyAt(rows, idx)
      invariant start.Some? <==> LatestOpenHeader(rows, idx).Some?
      invariant start.Some? ==> start.value == LatestOpenHeader(rows, idx).value + 1
      invariant start.Some? ==> header == rows[start.value - 1]
      invariant blocks == BlocksOf(rows, Spans(rows, idx))
    {
      var row := rows[idx];
      var first := At(row, 0);
      if first == Text(CompanyMarker) {
        empresa := Some(At(row, 1));
        continue;
      } else if first.Text? && StartsWith(first.s, TotalPrefix) {
        if start.Some? {
          var bloco := Block(header, rows[start.value .. idx], empresa);
          ghost var spans := Spans(rows, idx);
          ghost var sp := Span(start.value - 1, idx);
          assert Spans(rows, idx + 1) == spans + [sp];
          assert BlocksOf(rows, spans + [sp]) == BlocksOf(rows, spans) + [BlockOf(rows, sp)];
          blocks := blocks + [bloco];
        }
        start := None;
      } else if first == Text(HeaderMarker) {
        header := row;
        start := Some(idx + 1);
      }
    }
  }

  // ---------------------------------------------------------------------
  // What the reference definitions mean

  /** The open block is the one started by the latest header row with no total row after it. */
  lemma {:induction false} LatestOpenHeaderIsLatest(rows: seq<Row>, n: nat, h: nat)
    requires n <= |rows|
    ensures LatestOpenHeader(rows, n) == Some(h) <==> OpenedAt(rows, h, n)
  {
    if n == 0 {
    } else if IsTotal(rows[n - 1]) {
    } else if IsHeader(rows[n - 1]) {
      assert !Plain(rows[n - 1]);
    } else {
      LatestOpenHeaderIsLatest(rows, n - 1, h);
      if h < n - 1 && OpenedAt(rows, h, n - 1) {
        assert OpenedAt(rows, h, n);
      }
    }
  }

  /** No block is open exactly when no header row before n is free of later header and total rows. */
  lemma {:induction false} NoOpenHeader(rows: seq<Row>, n: nat)
    requires n <= |rows|
    ensures LatestOpenHeader(rows, n).None? <==> forall h :: !OpenedAt(rows, h, n)
  {
    if LatestOpenHeader(rows, n).Some? {
      LatestOpenHeaderIsLatest(rows, n, LatestOpenHeader(rows, n).value);
    } else {
      forall h ensures !OpenedAt(rows, h, n) {
        LatestOpenHeaderIsLatest(rows, n, h);
      }
    }
  }

  /** The company of a block is cell 1 of the latest company row before its total row. */
  lemma {:induction false} CompanyAtIsLatest(rows: seq<Row>, n: nat, j: nat)
    requires n <= |rows|
    requires LatestCompanyRow(rows, j, n)
    ensures CompanyAt(rows, n) == Some(At(rows[j], 1))
  {
    if j < n - 1 {
      assert !IsCompany(rows[n - 1]);
      CompanyAtIsLatest(rows, n - 1, j);
    }
  }

  /** Before any company row the company is None. */
  lemma {:induction false} CompanyAtNone(rows: seq<Row>, n: nat)
    requires n <= |rows|
    ensures CompanyAt(rows, n).None? <==> forall j :: 0 <= j < n ==> !IsCompany(rows[j])
  {
    if n > 0 {
      CompanyAtNone(rows, n - 1);
    }
  }

  /** Every span runs from a header row to a total row with only plain rows in between. */
  lemma {:induction false} SpansSound(rows: seq<Row>, n: nat)
    requires n <= |rows|
    ensures forall i :: 0 <= i < |Spans(rows, n)| ==>
              IsTotal(rows[Spans(rows, n)[i].total])
              && OpenedAt(rows, Spans(rows, n)[i].header, Spans(rows, n)[i].total)
  {
    if n > 0 {
      SpansSound(rows, n - 1);
      var open := LatestOpenHeader(rows, n - 1);
      if IsTotal(rows[n - 1]) && open.Some? {
        LatestOpenHeaderIsLatest(rows, n - 1, open.value);
      }
    }
  }

  /** Every total row that finds a block open closes it: that block is among the spans. */
  lemma {:induction false} SpansComplete(rows: seq<Row>, n: nat, h: nat, t: nat)
    requires t < n <= |rows|
    requires IsTotal(rows[t]) && OpenedAt(rows, h, t)
    ensures Span(h, t) in Spans(rows, n)
  {
    if t == n - 1 {
      LatestOpenHeaderIsLatest(rows, t, h);
      assert Spans(rows, n) == Spans(rows, t) + [Span(h, t)];
    } else {
      SpansComplete(rows, n - 1, h, t);
    }
  }

  /** The total rows of the spans increase strictly. */
  lemma {:induction false} SpansIncreasing(rows: seq<Row>, n: nat)
    requires n <= |rows|
    ensures forall i, j :: 0 <= i < j < |Spans(rows, n)| ==> Spans(rows, n)[i].total < Spans(rows, n)[j].total
  {
    if n > 0 {
      SpansIncreasing(rows, n - 1);
    }
  }

  /** Blocks are disjoint and in sheet order: each one starts after the previous one's total row. */
  lemma SpansOrdered(rows: seq<Row>, n: nat)
    requires n <= |rows|
    ensures forall i, j :: 0 <= i < j < |Spans(rows, n)| ==> Spans(rows, n)[i].total < Spans(rows, n)[j].header
  {
    var sp := Spans(rows, n);
    SpansSound(rows, n);
    SpansIncreasing(rows, n);
    forall i, j | 0 <= i < j < |sp| ensures sp[i].total < sp[j].header {
      assert OpenedAt(rows, sp[j].header, sp[j].total);
      assert !Plain(rows[sp[i].total]) && sp[i].total != sp[j].header;
    }
  }

  /**
   * A total row leaves no block open, and one that finds no block open (a
   * stray total row) closes nothing.
   */
  lemma TotalRowResets(rows: seq<Row>, t: nat)
    requires t < |rows| && IsTotal(rows[t])
    ensures LatestOpenHeader(rows, t + 1).None?
    ensures LatestOpenHeader(rows, t).None? ==> Spans(rows, t + 1) == Spans(rows, t)
  {
  }

  /** A header row with no total row after it closes nothing: the trailing rows are dropped. */
  lemma TrailingRowsDropped(rows: seq<Row>, tail: seq<Row>)
    requires forall k :: 0 <= k < |tail| ==> !IsTotal(tail[k])
    ensures Extracted(rows + tail) == Extracted(rows)
  {
    var all := rows + tail;
    PrefixSpans(rows, tail, |rows|);
    NoTotalKeepsSpans(all, |rows|, |all|);
    assert Spans(all, |all|) == Spans(rows, |rows|);
    var sp := Spans(rows, |rows|);
    forall i | 0 <= i < |sp| ensures BlockOf(all, sp[i]) == BlockOf(rows, sp[i]) {
      PrefixCompanyAt(rows, tail, sp[i].total);
      assert all[sp[i].header + 1 .. sp[i].total] == rows[sp[i].header + 1 .. sp[i].total];
    }
  }

  /** A sheet in which no total row finds a block open closes no block at all. */
  lemma {:induction false} NoClosedSpans(rows: seq<Row>, n: nat)
    requires n <= |rows|
    requires forall t :: 0 <= t < n && IsTotal(rows[t]) ==> LatestOpenHeader(rows, t).None?
    ensures Spans(rows, n) == []
  {
    if n > 0 {
      NoClosedSpans(rows, n - 1);
    }
  }

  /** A sheet without total rows yields no block at all. */
  lemma NoTotalRowNoBlocks(rows: seq<Row>)
    requires forall k :: 0 <= k < |rows| ==> !IsTotal(rows[k])
    ensures Extracted(rows) == []
  {
    TrailingRowsDropped([], rows);
    assert [] + rows == rows;
  }

  /** A sheet without header rows closes no block at all. */
  lemma {:induction false} NoHeaderRowNoSpans(rows: seq<Row>, n: nat)
    requires n <= |rows|
    requires forall k :: 0 <= k < n ==> !IsHeader(rows[k])
    ensures Spans(rows, n) == []
  {
    if n > 0 {
      NoHeaderRowNoSpans(rows, n - 1);
    }
  }

  /**
   * A second header row before the total row restarts the block: only the rows
   * after the latest header are emitted, labelled by that header.
   */
  lemma HeaderRestartsBlock(rows: seq<Row>, h1: nat, h2: nat, t: nat)
    requires h1 < h2 < t < |rows|
    requires IsHeader(rows[h1]) && IsTotal(rows[t]) && OpenedAt(rows, h2, t)
    ensures Span(h2, t) in Spans(rows, |rows|)
    ensures Span(h1, t) !in Spans(rows, |rows|)
  {
    SpansComplete(rows, |rows|, h2, t);
    SpansSound(rows, |rows|);
    assert !Plain(rows[h2]);
  }

  /**
   * When no total row separates two header rows, the earlier header closes no
   * block, and no block holds any row from it up to the later header: those
   * rows never reach the table.
   */
  lemma EarlierHeaderClosesNothing(rows: seq<Row>, h1: nat, h2: nat, t: nat)
    requires h1 < h2 < t < |rows|
    requires IsHeader(rows[h1]) && IsTotal(rows[t]) && OpenedAt(rows, h2, t)
    requires forall k :: h1 < k < h2 ==> !IsTotal(rows[k])
    ensures Span(h2, t) in Spans(rows, |rows|)
    ensures forall i :: 0 <= i < |Spans(rows, |rows|)| ==> Spans(rows, |rows|)[i].header != h1
    ensures forall i :: 0 <= i < |Spans(rows, |rows|)| ==>
              Spans(rows, |rows|)[i].total <= h1 || h2 <= Spans(rows, |rows|)[i].header
  {
    var sp := Spans(rows, |rows|);
    SpansComplete(rows, |rows|, h2, t);
    SpansSound(rows, |rows|);
    forall i | 0 <= i < |sp|
      ensures sp[i].total <= h1 || h2 <= sp[i].header
    {
      assert IsTotal(rows[sp[i].total]) && !Plain(rows[h2]);
    }
  }

  // ---------------------------------------------------------------------
  // The records of the concatenated table

  /** The table has exactly as many records as there are rows strictly inside the closed blocks. */
  lemma {:induction false} RecordCount(rows: seq<Row>, spans: seq<Span>)
    requires WithinSheet(rows, spans)
    ensures |Flatten(BlocksOf(rows, spans))| == BodySize(spans)
  {
    if spans != [] {
      assert BlocksOf(rows, spans)[1..] == BlocksOf(rows, spans[1..]);
      RecordCount(rows, spans[1..]);
    }
  }

  /**
   * Sentinel exclusivity: no record is a header or total row, and every record
   * is labelled by a header row.
   */
  lemma RecordsArePlainRows(rows: seq<Row>, r: Record)
    requires r in Flatten(Extracted(rows))
    ensures r.values in rows && Plain(r.values)
    ensures IsHeader(r.labels) && At(r.labels, 0) == Text(HeaderMarker)
  {
    var blocks := Extracted(rows);
    var sp := Spans(rows, |rows|);
    SpansSound(rows, |rows|);
    var i :| 0 <= i < |blocks| && r.labels == blocks[i].header && r.values in blocks[i].rows;
    BlockRowsArePlain(rows, sp[i]);
  }

  lemma BlockRowsArePlain(rows: seq<Row>, sp: Span)
    requires sp.header < sp.total < |rows| && OpenedAt(rows, sp.header, sp.total)
    ensures IsHeader(BlockOf(rows, sp).header)
    ensures forall v :: v in BlockOf(rows, sp).rows ==> v in rows && Plain(v)
  {
    var body := rows[sp.header + 1 .. sp.total];
    forall v | v in body ensures v in rows && Plain(v) {
      var k :| 0 <= k < |body| && body[k] == v;
      assert v == rows[sp.header + 1 + k];
    }
  }

  /** The company tag of every block is the company in force at its total row. */
  lemma BlockCompany(rows: seq<Row>, i: nat, j: nat)
    requires i < |Spans(rows, |rows|)|
    requires LatestCompanyRow(rows, j, Spans(rows, |rows|)[i].total)
    ensures Extracted(rows)[i].empresa == Some(At(rows[j], 1))
  {
    CompanyAtIsLatest(rows, Spans(rows, |rows|)[i].total, j);
  }

  // ---------------------------------------------------------------------
  // Prefix independence: what is decided before row n depends on rows[..n] only

  lemma {:induction false} PrefixOpenHeader(rows: seq<Row>, tail: seq<Row>, n: nat)
    requires n <= |rows|
    ensures LatestOpenHeader(rows + tail, n) == LatestOpenHeader(rows, n)
  {
    if n > 0 {
      assert (rows + tail)[n - 1] == rows[n - 1];
      PrefixOpenHeader(rows, tail, n - 1);
    }
  }

  lemma {:induction false} PrefixCompanyAt(rows: seq<Row>, tail: seq<Row>, n: nat)
    requires n <= |rows|
    ensures CompanyAt(rows + tail, n) == CompanyAt(rows, n)
  {
    if n > 0 {
      assert (rows + tail)[n - 1] == rows[n - 1];
      PrefixCompanyAt(rows, tail, n - 1);
    }
  }

  lemma {:induction false} PrefixSpans(rows: seq<Row>, tail: seq<Row>, n: nat)
    requires n <= |rows|
    ensures Spans(rows + tail, n) == Spans(rows, n)
  {
    if n > 0 {
      assert (rows + tail)[n - 1] == rows[n - 1];
      PrefixSpans(rows, tail, n - 1);
      PrefixOpenHeader(rows, tail, n - 1);
    }
  }

  lemma {:induction false} NoTotalKeepsSpans(rows: seq<Row>, m: nat, n: nat)
    requires m <= n <= |rows|
    requires forall k :: m <= k < n ==> !IsTotal(rows[k])
    ensures Spans(rows, n) == Spans(rows, m)
  {
    if m < n {
      NoTotalKeepsSpans(rows, m, n - 1);
    }
  }
}

/**
 * carregar_dados_com_filtro as a whole: extract the blocks, return an empty
 * table when there are none, otherwise concatenate them and apply the city
 * filter and then the job filter, each only when its criterion is given and
 * non-empty. Selecting a column the concatenated table does not have raises
 * KeyError, modelled as MissingColumn.
 */
module Loader {
  import opened Wrappers
  import opened Sheet
  import opened Extractor
  import opened Filter

  datatype LoadError = MissingColumn(column: string)

  /** A criterion filters only when it is given and non-empty (Python truthiness of a string). */
  predicate Active(criterion: Option<string>)
  {
    criterion.Some? && criterion.value != ""
  }

  /**
   * The concatenated table has a column: concatenation takes the union of the
   * blocks' headers, plus the empresa column every block receives.
   */
  predicate HasColumn(blocks: seq<Block>, column: string)
    ensures !HasColumn(blocks, column) ==> forall r :: r in Flatten(blocks) ==> Lookup(r, column) == Empty
  {
    column == CompanyLabel || exists i :: 0 <= i < |blocks| && Text(column) in blocks[i].header
  }

  /** One filter step on the table: select the column, then keep the rows whose mask is true. */
  function Narrow(blocks: seq<Block>, table: seq<Record>, column: string, criterion: Option<string>, fold: char -> char)
    : (res: Result<seq<Record>, LoadError>)
    ensures res.Err? <==> Active(criterion) && !HasColumn(blocks, column)
    ensures res.Err? ==> res.error == MissingColumn(column)
    ensures res.Ok? ==> forall x :: x in res.value <==>
              x in table && (Active(criterion) ==> Matches(x, column, criterion.value, fold))
  {
    if !Active(criterion) then Ok(table)
    else if !HasColumn(blocks, column) then Err(MissingColumn(column))
    else Ok(Keep(table, column, criterion.value, fold))
  }

  /** What carregar_dados_com_filtro returns for a sheet and the two criteria. */
  function Load(rows: seq<Row>, cidade: Option<string>, cargo: Option<string>, fold: char -> char)
    : (res: Result<seq<Record>, LoadError>)
    ensures Extracted(rows) == [] ==> res == Ok([])
    ensures res.Err? ==> res.error == MissingColumn(CityLabel) || res.error == MissingColumn(CargoLabel)
    ensures res.Ok? ==> forall x :: x in res.value <==>
              x in Flatten(Extracted(rows)) && Selected(x, cidade, cargo, fold)
  {
    var blocks := Extracted(rows);
    if blocks == [] then Ok([])
    else
      match Narrow(blocks, Flatten(blocks), CityLabel, cidade, fold)
      case Err(e) => Err(e)
      case Ok(table) => Narrow(blocks, table, CargoLabel, cargo, fold)
  }

  /** The loader: the scan, then the two filters in the source's order. */
  method LoadWithFilter(rows: seq<Row>, cidade: Option<string>, cargo: Option<string>, fold: char -> char)
    returns (result: Result<seq<Record>, LoadError>)
    ensures result == Load(rows, cidade, cargo, fold)
  {
    var blocks := ExtractBlocks(rows);
    if blocks == [] {
      return Ok([]);
    }
    var table := Flatten(blocks);
    if Active(cidade) {
      if !HasColumn(blocks, CityLabel) {
        return Err(MissingColumn(CityLabel));
      }
      table := Keep(table, CityLabel, cidade.value, fold);
    }
    if Active(cargo) {
      if !HasColumn(blocks, CargoLabel) {
        return Err(MissingColumn(CargoLabel));
      }
      table := Keep(table, CargoLabel, cargo.value, fold);
    }
    return Ok(table);
  }

  /** A record passes every active criterion. */
  predicate Selected(r: Record, cidade: Option<string>, cargo: Option<string>, fold: char -> char)
  {
    && (Active(cidade) ==> Matches(r, CityLabel, cidade.value, fold))
    && (Active(cargo) ==> Matches(r, CargoLabel, cargo.value, fold))
  }

  /** Without criteria the loader returns every extracted record, unchanged and in order. */
  lemma LoadWithoutCriteria(rows: seq<Row>, cidade: Option<string>, cargo: Option<string>, fold: char -> char)
    requires !Active(cidade) && !Active(cargo)
    ensures Load(rows, cidade, cargo, fold) == Ok(Flatten(Extracted(rows)))
  {
  }

  /**
   * If no total row finds a block open, no block is closed and the result is
   * the empty table, whatever the criteria, not an error.
   */
  lemma LoadNoBlocks(rows: seq<Row>, cidade: Option<string>, cargo: Option<string>, fold: char -> char)
    requires forall t :: 0 <= t < |rows| && IsTotal(rows[t]) ==> LatestOpenHeader(rows, t).None?
    ensures Load(rows, cidade, cargo, fold) == Ok([])
  {
    NoClosedSpans(rows, |rows|);
  }

  /** The loader fails exactly when a block was closed and an active criterion names an absent column. */
  lemma LoadFails(rows: seq<Row>, cidade: Option<string>, cargo: Option<string>, fold: char -> char)
    ensures Load(rows, cidade, cargo, fold).Err? <==>
              Extracted(rows) != [] &&
              ((Active(cidade) && !HasColumn(Extracted(rows), CityLabel)) ||
               (Active(cargo) && !HasColumn(Extracted(rows), CargoLabel)))
  {
  }

  /** One filter step keeps exactly the rows that pass its criterion, in order. */
  lemma NarrowPositions(blocks: seq<Block>, table: seq<Record>, column: string, criterion: Option<string>, fold: char -> char)
    returns (idx: seq<nat>)
    requires Narrow(blocks, table, column, criterion, fold).Ok?
    ensures Selects(Narrow(blocks, table, column, criterion, fold).value, table, idx)
    ensures forall j :: 0 <= j < |table| ==>
              (j in idx <==> (Active(criterion) ==> Matches(table[j], column, criterion.value, fold)))
  {
    if Active(criterion) {
      idx := KeepPositions(table, column, criterion.value, fold);
    } else {
      idx := Identity(|table|);
      forall j | 0 <= j < |table| ensures j in idx {
        assert idx[j] == j;
      }
    }
  }

  /**
   * What the loader keeps: exactly the extracted records that pass every
   * active criterion, at increasing positions of the extracted table.
   */
  lemma LoadSelects(rows: seq<Row>, cidade: Option<string>, cargo: Option<string>, fold: char -> char)
    returns (idx: seq<nat>)
    requires Load(rows, cidade, cargo, fold).Ok?
    ensures Selects(Load(rows, cidade, cargo, fold).value, Flatten(Extracted(rows)), idx)
    ensures forall j :: 0 <= j < |Flatten(Extracted(rows))| ==>
              (j in idx <==> Selected(Flatten(Extracted(rows))[j], cidade, cargo, fold))
  {
    var blocks := Extracted(rows);
    var all := Flatten(blocks);
    if blocks == [] {
      idx := [];
      return;
    }
    var afterCity := Narrow(blocks, all, CityLabel, cidade, fold).value;
    var cityIdx := NarrowPositions(blocks, all, CityLabel, cidade, fold);
    var cargoIdx := NarrowPositions(blocks, afterCity, CargoLabel, cargo, fold);
    idx := Compose(cityIdx, cargoIdx);
    SelectsCompose(Load(rows, cidade, cargo, fold).value, afterCity, all, cargoIdx, cityIdx);
    forall j | 0 <= j < |all|
      ensures j in idx <==> Selected(all[j], cidade, cargo, fold)
    {
      if j in cityIdx {
        var p :| 0 <= p < |cityIdx| && cityIdx[p] == j;
        ComposeAt(cityIdx, cargoIdx, p);
        assert afterCity[p] == all[j];
      } else {
        ComposeOutside(cityIdx, cargoIdx, j);
      }
    }
  }

  // ---------------------------------------------------------------------
  // Positions of a subsequence of a subsequence

  function Identity(n: nat): (idx: seq<nat>)
    ensures |idx| == n && forall i :: 0 <= i < n ==> idx[i] == i
  {
    seq(n, i requires 0 <= i < n => i)
  }

  function Compose(outer: seq<nat>, inner: seq<nat>): (idx: seq<nat>)
    requires forall i :: 0 <= i < |inner| ==> inner[i] < |outer|
  {
    seq(|inner|, i requires 0 <= i < |inner| => outer[inner[i]])
  }

  lemma SelectsCompose<T>(c: seq<T>, b: seq<T>, a: seq<T>, inner: seq<nat>, outer: seq<nat>)
    requires Selects(c, b, inner) && Selects(b, a, outer)
    ensures Selects(c, a, Compose(outer, inner))
  {
  }

  lemma ComposeAt(outer: seq<nat>, inner: seq<nat>, p: nat)
    requires forall i :: 0 <= i < |inner| ==> inner[i] < |outer|
    requires p < |outer| && forall i, k :: 0 <= i < k < |outer| ==> outer[i] < outer[k]
    ensures outer[p] in Compose(outer, inner) <==> p in inner
  {
    var co := Compose(outer, inner);
    if outer[p] in co {
      var i :| 0 <= i < |inner| && co[i] == outer[p];
      assert inner[i] == p;
    }
    if p in inner {
      var i :| 0 <= i < |inner| && inner[i] == p;
      assert co[i] == outer[p];
    }
  }

  lemma ComposeOutside(outer: seq<nat>, inner: seq<nat>, j: nat)
    requires forall i :: 0 <= i < |inner| ==> inner[i] < |outer|
    requires j !in outer
    ensures j !in Compose(outer, inner)
  {
  }
}

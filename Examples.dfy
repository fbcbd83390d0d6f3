/**
 * What the model gives for a few concrete sheets: the sheet of a single
 * company with one employee, a company row caught inside a block, and the
 * two filters on the values the application offers in its selectors.
 */
module Examples {
  import opened Wrappers
  import opened Sheet
  import opened Extractor
  import opened Filter
  import opened Loader

  /** Folds the ASCII upper-case letters to lower case. */
  function AsciiLower(c: char): char
  {
    if 'A' <= c <= 'Z' then (c as int + 32) as char else c
  }

  const Header: Row := [Text("Matrícula"), Text("Empregado"), Text("Cargo"), Text("Cidade de Atuação")]
  const Ana: Row := [Text("001"), Text("Ana"), Text("Analista"), Text("Recife")]
  const Acme: Row := [Text("Empresa"), Text("ACME")]
  const Total: Row := [Text("Total de empregados: 1")]

  /** One company, one header, one employee, one total row: one record tagged ACME. */
  lemma OneEmployee()
    ensures Extracted([Acme, Header, Ana, Total]) == [Block(Header, [Ana], Some(Text("ACME")))]
    ensures Flatten(Extracted([Acme, Header, Ana, Total])) == [Record(Header, Ana, Some(Text("ACME")))]
  {
    var rows := [Acme, Header, Ana, Total];
    assert IsCompany(rows[0]) && IsHeader(rows[1]) && KindOf(rows[2]) == DataRow;
    assert Total[0].s[..|TotalPrefix|] == TotalPrefix;
    assert IsTotal(rows[3]);
    LatestOpenHeaderIsLatest(rows, 3, 1);
    NoTotalKeepsSpans(rows, 0, 3);
    CompanyAtIsLatest(rows, 3, 0);
    assert Spans(rows, 4) == [Span(1, 3)];
    assert rows[2..3] == [Ana];
    assert Extracted(rows) == [Block(Header, [Ana], Some(Text("ACME")))];
    assert RecordsOf(Block(Header, [Ana], Some(Text("ACME")))) == [Record(Header, Ana, Some(Text("ACME")))];
  }

  /** The record of that employee, read by column label. */
  lemma OneEmployeeFields()
    ensures Lookup(Record(Header, Ana, Some(Text("ACME"))), "Empregado") == Text("Ana")
    ensures Lookup(Record(Header, Ana, Some(Text("ACME"))), CargoLabel) == Text("Analista")
    ensures Lookup(Record(Header, Ana, Some(Text("ACME"))), CityLabel) == Text("Recife")
    ensures Lookup(Record(Header, Ana, Some(Text("ACME"))), CompanyLabel) == Text("ACME")
  {
    assert Header[1..][1..] == [Text(CargoLabel), Text(CityLabel)];
    assert LabelIndex(Header, Text("Empregado")) == Some(1);
    assert LabelIndex(Header, Text(CargoLabel)) == Some(2);
    assert LabelIndex(Header, Text(CityLabel)) == Some(3);
  }

  const Globex: Row := [Text("Empresa"), Text("Globex")]

  /**
   * A company row between the header and the total row is not a sentinel of
   * the block: it is emitted as a record, and the company it names tags the
   * whole block, including the rows above it.
   */
  lemma CompanyRowInsideBlock()
    ensures Flatten(Extracted([Acme, Header, Ana, Globex, Total])) ==
              [Record(Header, Ana, Some(Text("Globex"))), Record(Header, Globex, Some(Text("Globex")))]
  {
    var rows := [Acme, Header, Ana, Globex, Total];
    assert IsCompany(rows[0]) && IsHeader(rows[1]) && KindOf(rows[2]) == DataRow && IsCompany(rows[3]);
    assert Total[0].s[..|TotalPrefix|] == TotalPrefix;
    assert IsTotal(rows[4]);
    assert Plain(rows[2]) && Plain(rows[3]);
    LatestOpenHeaderIsLatest(rows, 4, 1);
    NoTotalKeepsSpans(rows, 0, 4);
    CompanyAtIsLatest(rows, 4, 3);
    assert Spans(rows, 5) == [Span(1, 4)];
    assert rows[2..4] == [Ana, Globex];
    assert Extracted(rows) == [Block(Header, [Ana, Globex], Some(Text("Globex")))];
  }

  /** The job filter is a case-insensitive substring test. */
  lemma JobFilter()
    ensures Matches(Record([Text("Cargo")], [Text("Analista de Sistemas")], None), "Cargo", "analista", AsciiLower)
    ensures !Matches(Record([Text("Cargo")], [Text("Gerente")], None), "Cargo", "analista", AsciiLower)
  {
    assert AsciiLower('A') == 'a' && AsciiLower('n') == 'n' && AsciiLower('a') == 'a';
    assert AsciiLower('l') == 'l' && AsciiLower('i') == 'i' && AsciiLower('s') == 's' && AsciiLower('t') == 't';
    assert Folded("analista", AsciiLower) == "analista";
    assert Folded("Analista de Sistemas", AsciiLower)[0..][..8] == "analista";
    assert LabelIndex([Text("Cargo")], Text("Cargo")) == Some(0);
  }

  /** The city filter ignores case: "RECIFE" selects a record stored as "recife". */
  lemma CityFilter()
    ensures Matches(Record([Text(CityLabel)], [Text("recife")], None), CityLabel, "RECIFE", AsciiLower)
  {
    assert AsciiLower('R') == 'r' && AsciiLower('E') == 'e' && AsciiLower('C') == 'c';
    assert AsciiLower('I') == 'i' && AsciiLower('F') == 'f';
    assert AsciiLower('r') == 'r' && AsciiLower('e') == 'e' && AsciiLower('c') == 'c';
    assert AsciiLower('i') == 'i' && AsciiLower('f') == 'f';
    assert Folded("RECIFE", AsciiLower) == "recife";
    assert Folded("recife", AsciiLower) == "recife";
    assert "recife"[0..][..6] == "recife";
    assert LabelIndex([Text(CityLabel)], Text(CityLabel)) == Some(0);
  }
}

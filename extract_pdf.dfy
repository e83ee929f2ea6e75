/**
 * extract_pdf.py: turning the tables found in an uploaded balance-sheet PDF
 * into `(company_id, year, revenue, assets, liabilities, profit)` records and
 * upserting them.
 *
 * The PDF library's table detection is the input here: a document is a
 * sequence of pages, a page a sequence of detected tables, a table a
 * sequence of rows of cells, and a cell a string or `None`.
 */
module ExtractPdf {
  import opened Wrappers
  import opened Text
  import opened Store

  type Cell = Option<string>
  type TableRow = seq<Cell>
  type Table = seq<TableRow>
  type Page = seq<Table>

  // =====================================================================
  // choose_company (extract_pdf.py:43-62): the console prompt is left out;
  // what remains is which companies are offered and which id is accepted.

  /** The companies `choose_company` lists (extract_pdf.py:44-48). */
  function UploadChoices(user: Session, companies: seq<Company>): seq<Company> {
    VisibleCompanies(companies, IsGroupAdmin(user), user.companyId)
  }

  /** The id `choose_company` accepts and returns (extract_pdf.py:57-58). */
  predicate MayUploadFor(user: Session, companyId: int) {
    IsGroupAdmin(user) || Some(companyId) == user.companyId
  }

  /** Every listed company is accepted, and a non-administrator is accepted for their own company only. */
  lemma ChoicesAccepted(user: Session, companies: seq<Company>, companyId: int)
    ensures forall c :: c in UploadChoices(user, companies) ==> MayUploadFor(user, c.id)
    ensures !IsGroupAdmin(user) ==> (MayUploadFor(user, companyId) <==> user.companyId == Some(companyId))
  {
  }

  // =====================================================================
  // clean_number (extract_pdf.py:65-76)

  /** The characters `re.sub(r"[^\d().-]", "", val)` keeps. */
  predicate NumberChar(c: char) {
    IsDigit(c) || c == '(' || c == ')' || c == '.' || c == '-'
  }

  function KeepNumberChars(s: string): string {
    Filter(s, NumberChar)
  }

  /** The accounting convention: `(x)` is rewritten to `-x` (extract_pdf.py:71-72). */
  function AccountingSign(t: string): (r: string)
    ensures |t| > 0 && t[0] == '(' && t[|t| - 1] == ')' ==> |r| == |t| - 1 && r[0] == '-' && r[1..] == t[1..|t| - 1]
    ensures !(|t| > 0 && t[0] == '(' && t[|t| - 1] == ')') ==> r == t
  {
    if |t| > 0 && t[0] == '(' && t[|t| - 1] == ')' then "-" + t[1..|t| - 1] else t
  }

  /**
   * `clean_number(val)`: `None` for a missing or empty cell; otherwise strip,
   * drop commas, drop every character but digits, parentheses, `.` and `-`,
   * read a parenthesised value as negative, and parse; a text that does not
   * parse gives `None` instead of an exception.
   */
  function CleanNumber(val: Cell): (r: Option<real>)
    ensures val.None? || val == Some("") ==> r.None?
    ensures r.Some? ==> HasDigit(val.value)
  {
    match val
    case None => None
    case Some(s) =>
      if s == "" then None
      else
        CleanIgnoresLayout(s);
        CleanedDigitsCome(s);
        ParseDecimal(AccountingSign(KeepNumberChars(RemoveCommas(Strip(s)))))
  }

  /** A digit the parser reads was a digit of the cell. */
  lemma CleanedDigitsCome(s: string)
    requires KeepNumberChars(RemoveCommas(Strip(s))) == KeepNumberChars(s)
    ensures ParseDecimal(AccountingSign(KeepNumberChars(s))).Some? ==> HasDigit(s)
  {
    var t := KeepNumberChars(s);
    var u := AccountingSign(t);
    if ParseDecimal(u).Some? {
      var i :| 0 <= i < |u| && IsDigit(u[i]);
      var c := u[i];
      if |t| > 0 && t[0] == '(' && t[|t| - 1] == ')' {
        assert u == "-" + t[1..|t| - 1];
        assert i > 0;
        assert c == t[1..|t| - 1][i - 1] == t[i];
      } else {
        assert c == t[i];
      }
      assert c in t;
      FilterMembers(s, NumberChar);
      assert c in s;
      var j :| 0 <= j < |s| && s[j] == c;
      assert IsDigit(s[j]);
    }
  }

  /** Stripping and dropping commas change nothing the character filter would keep. */
  lemma CleanIgnoresLayout(s: string)
    ensures KeepNumberChars(RemoveCommas(Strip(s))) == KeepNumberChars(s)
  {
    FilterFilter(Strip(s), NotComma, NumberChar);
    FilterStrip(s, NumberChar);
  }

  /** Only the digits, parentheses, `.` and `-` of a cell decide its value. */
  lemma CleanNumberByKeptChars(s: string)
    requires s != ""
    ensures CleanNumber(Some(s)) == ParseDecimal(AccountingSign(KeepNumberChars(s)))
  {
    CleanIgnoresLayout(s);
  }

  lemma ParenthesesNegate(inner: string)
    ensures AccountingSign("(" + inner + ")") == "-" + inner
  {
    var t := "(" + inner + ")";
    assert t[1..|t| - 1] == inner;
  }

  /** The parsed text of a cell whose number characters are `"(" + inner + ")"`. */
  lemma CleanParenthesised(s: string, inner: string)
    requires KeepNumberChars(s) == "(" + inner + ")"
    ensures CleanNumber(Some(s)) == ParseDecimal("-" + inner)
  {
    assert |KeepNumberChars(s)| <= |s|;
    CleanNumberByKeptChars(s);
    ParenthesesNegate(inner);
  }

  /** A value wrapped in parentheses is read as its negation: `"(1,234.50)"` gives -1234.5. */
  lemma CleanNumberAccountingNegative(s: string, inner: string, v: real)
    requires KeepNumberChars(s) == "(" + inner + ")"
    requires ParseUnsigned(inner) == Some(v)
    ensures CleanNumber(Some(s)) == Some(-v)
  {
    CleanParenthesised(s, inner);
    ParseDecimalNegative(inner, v);
  }

  lemma DoubleMinus(inner: string)
    ensures "(-" + inner + ")" == "(" + ("-" + inner) + ")"
    ensures ParseDecimal("-" + ("-" + inner)) == None
  {
    var u := "-" + ("-" + inner);
    assert u[1..][0] == '-';
  }

  lemma MinusBeforeParenthesis(inner: string)
    ensures AccountingSign("-(" + inner + ")") == "-(" + inner + ")"
    ensures ParseDecimal("-(" + inner + ")") == None
  {
    var u := "-(" + inner + ")";
    assert u[1..][0] == '(';
  }

  /** A minus sign inside the parentheses makes the cell unreadable: `"(-5)"` gives `None`. */
  lemma CleanNumberMinusInside(s: string, inner: string)
    requires KeepNumberChars(s) == "(-" + inner + ")"
    ensures CleanNumber(Some(s)) == None
  {
    DoubleMinus(inner);
    CleanParenthesised(s, "-" + inner);
  }

  /** A minus sign before the parentheses makes the cell unreadable: `"-(5)"` gives `None`. */
  lemma CleanNumberMinusOutside(s: string, inner: string)
    requires KeepNumberChars(s) == "-(" + inner + ")"
    ensures CleanNumber(Some(s)) == None
  {
    assert |KeepNumberChars(s)| <= |s|;
    CleanNumberByKeptChars(s);
    MinusBeforeParenthesis(inner);
  }

  /** A cell whose kept characters hold no parentheses is read as the plain numeral. */
  lemma CleanNumberPlain(s: string)
    requires s != ""
    requires '(' !in KeepNumberChars(s)
    ensures CleanNumber(Some(s)) == ParseDecimal(KeepNumberChars(s))
  {
    CleanNumberByKeptChars(s);
  }

  /** A cell whose only number characters are the digits of `n` reads as `n`: `"1,000"` gives 1000. */
  lemma CleanNumberOfNatural(s: string, n: nat)
    requires KeepNumberChars(s) == NatToDigits(n)
    ensures CleanNumber(Some(s)) == Some(n as real)
  {
    assert |KeepNumberChars(s)| <= |s|;
    assert '(' !in NatToDigits(n);
    CleanNumberPlain(s);
    ParseNatDigits(n);
  }

  // =====================================================================
  // The year cell: int(re.sub(r"[^\d]", "", row[...])) (extract_pdf.py:120)

  /** `None` where Python raises: a `None` cell (TypeError) or no digit at all (ValueError). */
  function YearOf(cell: Cell): (r: Option<int>)
    ensures r.Some? <==> cell.Some? && HasDigit(cell.value)
    ensures r.Some? ==> r.value >= 0
  {
    match cell
    case None => None
    case Some(s) =>
      var d := KeepDigits(s);
      if d == [] then None else Some(DigitsValue(d))
  }

  /** Whatever surrounds the digits of a year is ignored: `"FY 2023"` reads as 2023. */
  lemma YearOfDigits(prefix: string, n: nat, suffix: string)
    requires !HasDigit(prefix) && !HasDigit(suffix)
    ensures YearOf(Some(prefix + NatToDigits(n) + suffix)) == Some(n)
  {
    var d := NatToDigits(n);
    FilterConcat(prefix + d, suffix, IsDigit);
    FilterConcat(prefix, d, IsDigit);
    NoDigitsFiltered(prefix);
    NoDigitsFiltered(suffix);
    AllDigitsFiltered(d);
    assert KeepDigits(prefix + d + suffix) == d;
    DigitsRoundTrip(n);
  }

  lemma {:induction false} NoDigitsFiltered(s: string)
    requires !HasDigit(s)
    ensures Filter(s, IsDigit) == []
  {
    if s != [] {
      assert !IsDigit(s[0]);
      forall i | 0 <= i < |s[1..]|
        ensures !IsDigit(s[1..][i])
      {
        assert s[1..][i] == s[i + 1];
      }
      NoDigitsFiltered(s[1..]);
    }
  }

  lemma {:induction false} AllDigitsFiltered(s: string)
    requires AllDigits(s)
    ensures Filter(s, IsDigit) == s
  {
    if s != [] {
      AllDigitsFiltered(s[1..]);
    }
  }

  // =====================================================================
  // extract_tables (extract_pdf.py:79-92): the shape filter

  /** `table and len(table) > 2 and len(table[0]) >= 5` */
  predicate Keep(table: Table) {
    |table| > 2 && |table[0]| >= 5
  }

  /** The tables of one page that pass the filter, in order. */
  function KeepFrom(tables: seq<Table>): (r: seq<Table>)
    ensures |r| <= |tables|
    ensures forall i :: 0 <= i < |r| ==> Keep(r[i])
  {
    if tables == [] then []
    else KeepFrom(tables[..|tables| - 1]) + (if Keep(tables[|tables| - 1]) then [tables[|tables| - 1]] else [])
  }

  /** The tables of a document that pass the filter, page by page. */
  function KeptTables(pages: seq<Page>): (r: seq<Table>)
    ensures forall i :: 0 <= i < |r| ==> Keep(r[i])
  {
    if pages == [] then []
    else KeptTables(pages[..|pages| - 1]) + KeepFrom(pages[|pages| - 1])
  }

  lemma KeepFromSnoc(tables: seq<Table>, table: Table)
    ensures KeepFrom(tables + [table]) == KeepFrom(tables) + if Keep(table) then [table] else []
  {
    assert (tables + [table])[..|tables|] == tables;
  }

  lemma KeptTablesSnoc(pages: seq<Page>, page: Page)
    ensures KeptTables(pages + [page]) == KeptTables(pages) + KeepFrom(page)
  {
    assert (pages + [page])[..|pages|] == pages;
  }

  /** A page's kept tables are exactly its tables that pass the filter. */
  lemma {:induction false} KeepFromMembers(tables: seq<Table>, t: Table)
    ensures t in KeepFrom(tables) <==> t in tables && Keep(t)
  {
    if tables != [] {
      var init, last := tables[..|tables| - 1], tables[|tables| - 1];
      assert tables == init + [last];
      KeepFromMembers(init, t);
      KeepFromSnoc(init, last);
    }
  }

  /** The document's kept tables are exactly the tables of its pages that pass the filter. */
  lemma {:induction false} KeptTablesMembers(pages: seq<Page>, t: Table)
    ensures t in KeptTables(pages) <==> Keep(t) && exists p :: 0 <= p < |pages| && t in pages[p]
  {
    if pages != [] {
      var init, last := pages[..|pages| - 1], pages[|pages| - 1];
      assert pages == init + [last];
      KeptTablesMembers(init, t);
      KeptTablesSnoc(init, last);
      KeepFromMembers(last, t);
      if t in KeptTables(pages) && t !in KeptTables(init) {
        assert t in pages[|pages| - 1];
      }
      if Keep(t) && exists p :: 0 <= p < |pages| && t in pages[p] {
        var p :| 0 <= p < |pages| && t in pages[p];
        if p < |init| {
          assert init[p] == pages[p];
        }
      }
    }
  }

  /** A table of two rows or fewer is never kept. */
  lemma ShortTableDropped(pages: seq<Page>, table: Table)
    requires |table| <= 2
    ensures table !in KeptTables(pages)
  {
  }

  /** The inner loop of extract_tables over the tables detected on one page (extract_pdf.py:86-90). */
  method PageTables(extracted: Page) returns (kept: seq<Table>)
    ensures kept == KeepFrom(extracted)
  {
    kept := [];
    for j := 0 to |extracted|
      invariant kept == KeepFrom(extracted[..j])
    {
      var table := extracted[j];
      assert extracted[..j + 1] == extracted[..j] + [table];
      KeepFromSnoc(extracted[..j], table);
      if |table| > 0 && |table| > 2 && |table[0]| >= 5 {
        kept := kept + [table];
      }
    }
    assert extracted[..|extracted|] == extracted;
  }

  /** extract_tables: the kept tables of every page, in page order (extract_pdf.py:79-92). */
  method ExtractTables(pages: seq<Page>) returns (tables: seq<Table>)
    ensures tables == KeptTables(pages)
  {
    tables := [];
    for p := 0 to |pages|
      invariant tables == KeptTables(pages[..p])
    {
      var extracted := pages[p];
      var kept := PageTables(extracted);
      tables := tables + kept;
      assert pages[..p + 1] == pages[..p] + [extracted];
      KeptTablesSnoc(pages[..p], extracted);
    }
    assert pages[..|pages|] == pages;
  }

  // =====================================================================
  // extract_and_store (extract_pdf.py:95-138): headers and rows

  /** What one header cell contributes to the comprehension: nothing when it is missing or empty. */
  function HeaderName(cell: Cell): (r: seq<string>)
    ensures |r| <= 1
  {
    if cell.Some? && cell.value != "" then [Lower(Strip(cell.value))] else []
  }

  /** `[h.strip().lower() for h in table[0] if h]` */
  function Headers(header: TableRow): (r: seq<string>)
    ensures |r| <= |header|
  {
    if header == [] then [] else HeaderName(header[0]) + Headers(header[1..])
  }

  lemma {:induction false} HeadersConcat(a: TableRow, b: TableRow)
    ensures Headers(a + b) == Headers(a) + Headers(b)
  {
    if a != [] {
      var h := HeaderName(a[0]);
      assert (a + b)[0] == a[0];
      assert (a + b)[1..] == a[1..] + b;
      HeadersConcat(a[1..], b);
      assert h + (Headers(a[1..]) + Headers(b)) == (h + Headers(a[1..])) + Headers(b);
    } else {
      assert a + b == b;
    }
  }

  /**
   * Dropping empty header cells shifts indices: the header of column `j`
   * sits at index `j` minus the number of empty cells before it, so
   * `col_map` points at a different column of the data rows.
   */
  lemma HeaderShift(header: TableRow, j: nat)
    requires j < |header| && header[j].Some? && header[j].value != ""
    ensures |Headers(header[..j])| <= j
    ensures |Headers(header[..j])| < |Headers(header)|
    ensures Headers(header)[|Headers(header[..j])|] == Lower(Strip(header[j].value))
  {
    assert header == header[..j] + header[j..];
    HeadersConcat(header[..j], header[j..]);
    assert header[j..][0] == header[j];
  }

  /** `{name: idx for idx, name in enumerate(headers)}`: the last index of each header wins. */
  function ColMap(headers: seq<string>): (m: map<string, nat>)
    ensures forall name :: name in m <==> name in headers
    ensures forall name :: name in m ==> m[name] < |headers| && headers[m[name]] == name
    ensures forall name, j :: name in m && m[name] < j < |headers| ==> headers[j] != name
  {
    if headers == [] then map[]
    else
      var init := headers[..|headers| - 1];
      assert headers == init + [headers[|headers| - 1]];
      ColMap(init)[headers[|headers| - 1] := |headers| - 1]
  }

  const Required: seq<string> := ["year", "revenue", "assets", "liabilities", "profit"]

  /** Some header contains `field` as a substring. */
  predicate Mentions(headers: seq<string>, field: string) {
    exists h :: h in headers && Contains(h, field)
  }

  /** `all(any(r in h for h in headers) for r in required)` */
  predicate HasRequired(headers: seq<string>) {
    forall i :: 0 <= i < |Required| ==> Mentions(headers, Required[i])
  }

  /** `col_map.get(name, fallback)` */
  function Column(colMap: map<string, nat>, name: string, fallback: nat): nat {
    if name in colMap then colMap[name] else fallback
  }

  /**
   * A field is read from the column of the header that IS its name, else
   * from its fixed column, whatever other headers mention it.
   */
  lemma ColumnChoice(headers: seq<string>, name: string, fallback: nat)
    ensures name !in headers ==> Column(ColMap(headers), name, fallback) == fallback
    ensures name in headers ==> headers[Column(ColMap(headers), name, fallback)] == name
  {
  }

  /** A header mentions the field it is named after. */
  lemma MentionsOwnName(headers: seq<string>, i: nat)
    requires i < |headers|
    ensures Mentions(headers, headers[i])
  {
    var h := headers[i];
    assert h[..|h|] == h;
    assert StartsWith(h, h);
    assert h in headers;
  }

  /** The header "total revenue" mentions "revenue". */
  lemma TotalRevenueMentionsRevenue(headers: seq<string>)
    requires |headers| > 1 && headers[1] == "total revenue"
    ensures Mentions(headers, "revenue")
  {
    var total := headers[1];
    assert total[6..13] == "revenue";
    assert OccursAt(total, "revenue", 6);
    ContainsAt(total, "revenue");
    assert total in headers;
  }

  /** A "total revenue" header satisfies the required-fields check, yet revenue is read from column 1. */
  lemma SubstringHeaderFallsBack(headers: seq<string>)
    requires headers == ["year", "total revenue", "assets", "liabilities", "profit"]
    ensures HasRequired(headers)
    ensures Column(ColMap(headers), "revenue", 1) == 1
  {
    TotalRevenueMentionsRevenue(headers);
    assert Required[1] == "revenue";
    forall i | 0 <= i < |Required| && i != 1 ensures headers[i] == Required[i] {
      assert i == 0 || i == 2 || i == 3 || i == 4;
    }
    RequiredMentioned(headers, 1);
    RevenueNotAHeader(headers);
    ColumnChoice(headers, "revenue", 1);
  }

  /** Headers that are the required names, except one header that mentions its name, pass the check. */
  lemma RequiredMentioned(headers: seq<string>, k: nat)
    requires |headers| == |Required| && k < |Required|
    requires forall i :: 0 <= i < |Required| && i != k ==> headers[i] == Required[i]
    requires Mentions(headers, Required[k])
    ensures HasRequired(headers)
  {
    forall i | 0 <= i < |Required| ensures Mentions(headers, Required[i]) {
      if i != k {
        MentionsOwnName(headers, i);
      }
    }
  }

  lemma RevenueNotAHeader(headers: seq<string>)
    requires headers == ["year", "total revenue", "assets", "liabilities", "profit"]
    ensures "revenue" !in headers
  {
    forall j | 0 <= j < |headers| ensures headers[j] != "revenue" {
      assert |headers[j]| != 7;
    }
  }

  /**
   * The body of the `try` block for one row of at least five cells
   * (extract_pdf.py:119-130): `None` where a column index is out of range,
   * the year cell cannot be read, or a numeric cell cleans to `None`.
   */
  function RowRecord(row: TableRow, colMap: map<string, nat>, companyId: int): (r: Option<SheetRow>)
    requires |row| >= 5
    ensures r.Some? <==>
      var y, rv, a, l, p := Column(colMap, "year", 0), Column(colMap, "revenue", 1),
        Column(colMap, "assets", 2), Column(colMap, "liabilities", 3), Column(colMap, "profit", 4);
      && y < |row| && rv < |row| && a < |row| && l < |row| && p < |row|
      && row[y].Some? && HasDigit(row[y].value)
      && CleanNumber(row[rv]).Some? && CleanNumber(row[a]).Some?
      && CleanNumber(row[l]).Some? && CleanNumber(row[p]).Some?
    ensures r.Some? ==>
      && r.value.companyId == companyId
      && r.value.year == YearOf(row[Column(colMap, "year", 0)]).value
      && r.value.revenue == CleanNumber(row[Column(colMap, "revenue", 1)])
      && r.value.assets == CleanNumber(row[Column(colMap, "assets", 2)])
      && r.value.liabilities == CleanNumber(row[Column(colMap, "liabilities", 3)])
      && r.value.profit == CleanNumber(row[Column(colMap, "profit", 4)])
  {
    var y, rv, a, l, p := Column(colMap, "year", 0), Column(colMap, "revenue", 1),
      Column(colMap, "assets", 2), Column(colMap, "liabilities", 3), Column(colMap, "profit", 4);
    if y >= |row| || rv >= |row| || a >= |row| || l >= |row| || p >= |row| then None
    else
      var year := YearOf(row[y]);
      var revenue, assets, liabilities, profit :=
        CleanNumber(row[rv]), CleanNumber(row[a]), CleanNumber(row[l]), CleanNumber(row[p]);
      if year.None? || revenue.None? || assets.None? || liabilities.None? || profit.None? then None
      else Some(SheetRow(companyId, year.value, revenue, assets, liabilities, profit))
  }

  /** The `try` block as a parser of data rows; rows of fewer than five cells never reach it. */
  function RowParser(colMap: map<string, nat>, companyId: int): (parse: TableRow -> Option<SheetRow>)
    ensures forall row: TableRow :: |row| < 5 ==> parse(row).None?
    ensures forall row: TableRow :: |row| >= 5 ==> parse(row) == RowRecord(row, colMap, companyId)
  {
    row => if |row| >= 5 then RowRecord(row, colMap, companyId) else None
  }

  /**
   * The records the row loop collects from `rows` with a given row parser,
   * in row order: a row of fewer than five cells is skipped, and so is one
   * the parser rejects.
   */
  function RowsRecords(rows: seq<TableRow>, parse: TableRow -> Option<SheetRow>): (r: seq<SheetRow>)
    ensures |r| <= |rows|
  {
    if rows == [] then []
    else
      var last := rows[|rows| - 1];
      RowsRecords(rows[..|rows| - 1], parse) + (if |last| >= 5 && parse(last).Some? then [parse(last).value] else [])
  }

  lemma RowsRecordsSnoc(rows: seq<TableRow>, row: TableRow, parse: TableRow -> Option<SheetRow>)
    ensures RowsRecords(rows + [row], parse) ==
            RowsRecords(rows, parse) + (if |row| >= 5 && parse(row).Some? then [parse(row).value] else [])
  {
    assert (rows + [row])[..|rows|] == rows;
  }

  lemma {:induction false} RowsRecordsConcat(a: seq<TableRow>, b: seq<TableRow>, parse: TableRow -> Option<SheetRow>)
    ensures RowsRecords(a + b, parse) == RowsRecords(a, parse) + RowsRecords(b, parse)
  {
    if b == [] {
      assert a + b == a;
    } else {
      var init, last := b[..|b| - 1], b[|b| - 1];
      assert b == init + [last];
      assert a + b == (a + init) + [last];
      RowsRecordsConcat(a, init, parse);
      RowsRecordsSnoc(a + init, last, parse);
      RowsRecordsSnoc(init, last, parse);
    }
  }

  /** Every collected record is what the parser made of some row of at least five cells. */
  lemma {:induction false} RowsRecordsParsed(rows: seq<TableRow>, parse: TableRow -> Option<SheetRow>, x: SheetRow)
    requires x in RowsRecords(rows, parse)
    ensures exists i :: 0 <= i < |rows| && |rows[i]| >= 5 && parse(rows[i]) == Some(x)
  {
    var init, last := rows[..|rows| - 1], rows[|rows| - 1];
    assert rows == init + [last];
    RowsRecordsSnoc(init, last, parse);
    if x in RowsRecords(init, parse) {
      RowsRecordsParsed(init, parse, x);
      var i :| 0 <= i < |init| && |init[i]| >= 5 && parse(init[i]) == Some(x);
      assert rows[i] == init[i];
    } else {
      assert |rows[|rows| - 1]| >= 5 && parse(rows[|rows| - 1]) == Some(x);
    }
  }

  /** A rejected row is dropped on its own: the rows around it yield what they would without it. */
  lemma RejectedRowDropped(before: seq<TableRow>, row: TableRow, after: seq<TableRow>, colMap: map<string, nat>, companyId: int)
    requires |row| < 5 || RowRecord(row, colMap, companyId).None?
    ensures RowsRecords(before + [row] + after, RowParser(colMap, companyId)) ==
            RowsRecords(before + after, RowParser(colMap, companyId))
  {
    var parse := RowParser(colMap, companyId);
    RowsRecordsConcat(before + [row], after, parse);
    RowsRecordsSnoc(before, row, parse);
    RowsRecordsConcat(before, after, parse);
  }

  /** Every record of a table belongs to the company the upload was made for. */
  lemma RowsRecordsCompany(rows: seq<TableRow>, colMap: map<string, nat>, companyId: int)
    ensures forall x :: x in RowsRecords(rows, RowParser(colMap, companyId)) ==> x.companyId == companyId
  {
    forall x | x in RowsRecords(rows, RowParser(colMap, companyId))
      ensures x.companyId == companyId
    {
      RowsRecordsParsed(rows, RowParser(colMap, companyId), x);
    }
  }

  /** A table's records: none unless every required field is mentioned by some header. */
  function TableRecords(table: Table, companyId: int): (r: seq<SheetRow>)
    requires |table| > 0
    ensures !HasRequired(Headers(table[0])) ==> r == []
    ensures forall x :: x in r ==> x.companyId == companyId
    ensures |r| < |table|
  {
    var headers := Headers(table[0]);
    if !HasRequired(headers) then []
    else
      var colMap := ColMap(headers);
      RowsRecordsCompany(table[1..], colMap, companyId);
      RowsRecords(table[1..], RowParser(colMap, companyId))
  }

  /** All records of an extraction run, table by table. */
  function TablesRecords(tables: seq<Table>, companyId: int): (r: seq<SheetRow>)
    requires forall i :: 0 <= i < |tables| ==> |tables[i]| > 0
    ensures forall x :: x in r ==> x.companyId == companyId
  {
    if tables == [] then []
    else TablesRecords(tables[..|tables| - 1], companyId) + TableRecords(tables[|tables| - 1], companyId)
  }

  /** One more table extends the records by that table's records. */
  lemma TablesRecordsStep(tables: seq<Table>, t: nat, companyId: int)
    requires forall i :: 0 <= i < |tables| ==> |tables[i]| > 0
    requires t < |tables|
    ensures TablesRecords(tables[..t + 1], companyId) == TablesRecords(tables[..t], companyId) + TableRecords(tables[t], companyId)
  {
    assert tables[..t + 1][..t] == tables[..t];
  }

  /** The inner loop of extract_and_store over the data rows of one table (extract_pdf.py:115-132). */
  method CollectRows(table: Table, parse: TableRow -> Option<SheetRow>) returns (records: seq<SheetRow>)
    requires |table| > 0
    ensures records == RowsRecords(table[1..], parse)
  {
    records := [];
    for i := 1 to |table|
      invariant records == RowsRecords(table[1..i], parse)
    {
      var row := table[i];
      assert table[1..i + 1] == table[1..i] + [row];
      RowsRecordsSnoc(table[1..i], row, parse);
      if |row| < 5 {
        continue;
      }
      var rec := parse(row);
      if rec.Some? {
        records := records + [rec.value];
      }
    }
    assert table[1..|table|] == table[1..];
  }

  /** The body of extract_and_store's loop over the kept tables, for one table (extract_pdf.py:107-132). */
  method TableStep(table: Table, companyId: int) returns (records: seq<SheetRow>)
    requires |table| > 0
    ensures records == TableRecords(table, companyId)
  {
    var headers := Headers(table[0]);
    var colMap := ColMap(headers);
    if !HasRequired(headers) {
      return [];
    }
    records := CollectRows(table, RowParser(colMap, companyId));
  }

  /** extract_and_store's loop over the kept tables (extract_pdf.py:103-132). */
  method ExtractRecords(tables: seq<Table>, companyId: int) returns (insertedRecords: seq<SheetRow>, totalRows: nat)
    requires forall i :: 0 <= i < |tables| ==> |tables[i]| > 0
    ensures insertedRecords == TablesRecords(tables, companyId)
    ensures totalRows == |insertedRecords|
  {
    insertedRecords := [];
    totalRows := 0;
    for t := 0 to |tables|
      invariant insertedRecords == TablesRecords(tables[..t], companyId)
      invariant totalRows == |insertedRecords|
    {
      var table := tables[t];
      TablesRecordsStep(tables, t, companyId);
      var rows := TableStep(table, companyId);
      insertedRecords := insertedRecords + rows;
      totalRows := totalRows + |rows|;
    }
    assert tables[..|tables|] == tables;
  }

  // =====================================================================
  // add_balance_sheet_data_bulk (extract_pdf.py:8-31)

  /**
   * `executemany` of the upsert: the rows are applied in order, so within
   * one batch the last row for a key wins. An empty batch returns at once.
   */
  method AddBalanceSheetDataBulk(db: Database, records: seq<SheetRow>)
    requires db.Valid()
    modifies db
    ensures db.Valid()
    ensures db.companies == old(db.companies) && db.users == old(db.users)
    ensures db.sheets == UpsertAll(old(db.sheets), records)
  {
    if records == [] {
      return;
    }
    var i := 0;
    while i < |records|
      invariant 0 <= i <= |records|
      invariant db.companies == old(db.companies) && db.users == old(db.users)
      invariant db.sheets == UpsertAll(old(db.sheets), records[..i])
      invariant db.Valid()
    {
      assert records[..i + 1][..i] == records[..i];
      db.sheets := Upsert(db.sheets, records[i]);
      i := i + 1;
    }
    assert records[..|records|] == records;
  }

  // =====================================================================
  // extract_and_store as a whole

  datatype Outcome =
    | NoTables        // "No valid tables found in PDF."
    | NoValidData     // "No valid balance sheet data found."
    | Stored(rows: nat)  // "<n> rows of balance sheet data stored/updated successfully."

  /**
   * `extract_and_store(pdf_path, user)`, with `companyId` the id
   * `choose_company` returned for this user (so one it accepts).
   */
  method ExtractAndStore(db: Database, pages: seq<Page>, user: Session, companyId: int) returns (outcome: Outcome)
    requires db.Valid()
    requires MayUploadFor(user, companyId)
    modifies db
    ensures db.Valid()
    ensures db.companies == old(db.companies) && db.users == old(db.users)
    ensures KeptTables(pages) == [] ==> outcome == NoTables && db.sheets == old(db.sheets)
    ensures KeptTables(pages) != [] ==>
      var records := TablesRecords(KeptTables(pages), companyId);
      && db.sheets == UpsertAll(old(db.sheets), records)
      && outcome == if records == [] then NoValidData else Stored(|records|)
    ensures forall k: (int, int) :: k.0 != companyId ==> Lookup(db.sheets, k) == Lookup(old(db.sheets), k)
  {
    var tables := ExtractTables(pages);
    if tables == [] {
      return NoTables;
    }
    var insertedRecords, totalRows := ExtractRecords(tables, companyId);
    if insertedRecords != [] {
      AddBalanceSheetDataBulk(db, insertedRecords);
      outcome := Stored(totalRows);
    } else {
      outcome := NoValidData;
    }
    forall k: (int, int) | k.0 != companyId
      ensures Lookup(db.sheets, k) == Lookup(old(db.sheets), k)
    {
      UpsertAllLookup(old(db.sheets), insertedRecords, k);
      assert LastWithKey(insertedRecords, k).None?;
    }
  }
}

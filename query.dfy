/**
 * The read side shared by db.py and app.py: `SELECT year, revenue, assets,
 * liabilities, profit FROM balance_sheets WHERE ... ORDER BY year ASC`.
 * A `WHERE` clause is a predicate on a stored row; the selected columns are
 * a `Figures` value.
 */
module Query {
  import opened Wrappers
  import opened Ordering
  import opened Store

  /** The dictionary `{"id": cid, "name": name}` of a company listing. */
  datatype CompanyRef = CompanyRef(id: int, name: string)

  /** `SELECT id, name FROM companies ...` turned into dictionaries, in table order. */
  function Refs(rows: seq<Company>): (r: seq<CompanyRef>)
    ensures |r| == |rows|
    ensures forall i :: 0 <= i < |rows| ==> r[i] == CompanyRef(rows[i].id, rows[i].name)
  {
    if rows == [] then [] else [CompanyRef(rows[0].id, rows[0].name)] + Refs(rows[1..])
  }

  /** `id in [c["id"] for c in refs]` */
  predicate Listed(refs: seq<CompanyRef>, id: int) {
    exists i :: 0 <= i < |refs| && refs[i].id == id
  }

  /** An id is listed exactly when such a company exists and is in the caller's scope. */
  lemma ListedVisible(rows: seq<Company>, admin: bool, companyId: Option<int>, id: int)
    ensures Listed(Refs(VisibleCompanies(rows, admin, companyId)), id)
            <==> HasCompanyId(rows, id) && (admin || Some(id) == companyId)
  {
    if Listed(Refs(VisibleCompanies(rows, admin, companyId)), id) {
      ListedIsVisible(rows, admin, companyId, id);
    }
    if HasCompanyId(rows, id) && (admin || Some(id) == companyId) {
      VisibleIsListed(rows, admin, companyId, id);
    }
  }

  lemma ListedIsVisible(rows: seq<Company>, admin: bool, companyId: Option<int>, id: int)
    requires Listed(Refs(VisibleCompanies(rows, admin, companyId)), id)
    ensures HasCompanyId(rows, id) && (admin || Some(id) == companyId)
  {
    var v := VisibleCompanies(rows, admin, companyId);
    var refs := Refs(v);
    var j :| 0 <= j < |refs| && refs[j].id == id;
    var c := v[j];
    assert c.id == id;
    assert c in v;
    assert c in rows && (admin || Some(id) == companyId);
    var i :| 0 <= i < |rows| && rows[i] == c;
    assert rows[i].id == id;
  }

  lemma VisibleIsListed(rows: seq<Company>, admin: bool, companyId: Option<int>, id: int)
    requires HasCompanyId(rows, id) && (admin || Some(id) == companyId)
    ensures Listed(Refs(VisibleCompanies(rows, admin, companyId)), id)
  {
    var v := VisibleCompanies(rows, admin, companyId);
    var refs := Refs(v);
    var i :| 0 <= i < |rows| && rows[i].id == id;
    var c := rows[i];
    assert c in rows;
    assert c in v;
    var j :| 0 <= j < |v| && v[j] == c;
    assert refs[j].id == id;
  }

  /** A listed `(id, name)` pair is exactly the id and name of a stored company in the caller's scope. */
  lemma ListedRefs(rows: seq<Company>, admin: bool, companyId: Option<int>, c: CompanyRef)
    ensures c in Refs(VisibleCompanies(rows, admin, companyId))
            <==> exists co :: co in rows && co.id == c.id && co.name == c.name && (admin || Some(co.id) == companyId)
  {
    var v := VisibleCompanies(rows, admin, companyId);
    var refs := Refs(v);
    if c in refs {
      var j :| 0 <= j < |refs| && refs[j] == c;
      assert v[j] in v;
    }
    if exists co :: co in rows && co.id == c.id && co.name == c.name && (admin || Some(co.id) == companyId) {
      var co :| co in rows && co.id == c.id && co.name == c.name && (admin || Some(co.id) == companyId);
      assert co in v;
      var j :| 0 <= j < |v| && v[j] == co;
      assert refs[j] == c;
    }
  }

  /** Company ids are a primary key, so a listed pair carries the name stored under its id. */
  lemma ListedName(rows: seq<Company>, admin: bool, companyId: Option<int>, c: CompanyRef)
    requires forall i, j :: 0 <= i < j < |rows| ==> rows[i].id != rows[j].id
    requires c in Refs(VisibleCompanies(rows, admin, companyId))
    ensures CompanyNameById(rows, c.id) == Some(c.name)
  {
    ListedRefs(rows, admin, companyId, c);
    var co :| co in rows && co.id == c.id && co.name == c.name && (admin || Some(co.id) == companyId);
    var j :| 0 <= j < |rows| && rows[j] == co;
    var name := CompanyNameById(rows, c.id);
    var i :| 0 <= i < |rows| && rows[i].id == c.id && rows[i].name == name.value;
    assert i == j;
  }

  /** The tuple `(year, revenue, assets, liabilities, profit)`. */
  datatype Figures = Figures(year: int, revenue: Option<real>, assets: Option<real>,
                             liabilities: Option<real>, profit: Option<real>)

  function FiguresOf(row: SheetRow): Figures {
    Figures(row.year, row.revenue, row.assets, row.liabilities, row.profit)
  }

  /** `SELECT year, revenue, ... WHERE where(row)`, in table order. */
  function Select(sheets: seq<SheetRow>, where: SheetRow -> bool): (r: seq<Figures>)
    ensures |r| <= |sheets|
  {
    if sheets == [] then []
    else (if where(sheets[0]) then [FiguresOf(sheets[0])] else []) + Select(sheets[1..], where)
  }

  /** A selected tuple is exactly the figures of some row the clause admits. */
  lemma {:induction false} SelectMembers(sheets: seq<SheetRow>, where: SheetRow -> bool, f: Figures)
    ensures f in Select(sheets, where) <==> exists i :: 0 <= i < |sheets| && where(sheets[i]) && FiguresOf(sheets[i]) == f
  {
    if sheets != [] {
      SelectMembers(sheets[1..], where, f);
      if exists i :: 0 <= i < |sheets| && where(sheets[i]) && FiguresOf(sheets[i]) == f {
        var i :| 0 <= i < |sheets| && where(sheets[i]) && FiguresOf(sheets[i]) == f;
        if i > 0 {
          assert sheets[1..][i - 1] == sheets[i];
        }
      }
      if f in Select(sheets[1..], where) {
        var j :| 0 <= j < |sheets[1..]| && where(sheets[1..][j]) && FiguresOf(sheets[1..][j]) == f;
        assert sheets[j + 1] == sheets[1..][j];
      }
    }
  }

  /** Two clauses that agree on every stored row select the same tuples. */
  lemma {:induction false} SelectSame(sheets: seq<SheetRow>, w1: SheetRow -> bool, w2: SheetRow -> bool)
    requires forall i :: 0 <= i < |sheets| ==> w1(sheets[i]) == w2(sheets[i])
    ensures Select(sheets, w1) == Select(sheets, w2)
  {
    if sheets != [] {
      assert w1(sheets[0]) == w2(sheets[0]);
      forall i | 0 <= i < |sheets[1..]| ensures w1(sheets[1..][i]) == w2(sheets[1..][i]) {
        assert sheets[1..][i] == sheets[i + 1];
      }
      SelectSame(sheets[1..], w1, w2);
    }
  }

  /** When the clause admits every row, every row is selected. */
  lemma {:induction false} SelectAll(sheets: seq<SheetRow>, where: SheetRow -> bool)
    requires forall i :: 0 <= i < |sheets| ==> where(sheets[i])
    ensures |Select(sheets, where)| == |sheets|
  {
    if sheets != [] {
      assert where(sheets[0]);
      forall i | 0 <= i < |sheets[1..]| ensures where(sheets[1..][i]) {
        assert sheets[1..][i] == sheets[i + 1];
      }
      SelectAll(sheets[1..], where);
    }
  }

  /** When the clause admits no row, nothing is selected. */
  lemma {:induction false} SelectNone(sheets: seq<SheetRow>, where: SheetRow -> bool)
    requires forall i :: 0 <= i < |sheets| ==> !where(sheets[i])
    ensures Select(sheets, where) == []
  {
    if sheets != [] {
      assert !where(sheets[0]);
      forall i | 0 <= i < |sheets[1..]| ensures !where(sheets[1..][i]) {
        assert sheets[1..][i] == sheets[i + 1];
      }
      SelectNone(sheets[1..], where);
    }
  }

  predicate YearLe(a: Figures, b: Figures) {
    a.year <= b.year
  }

  lemma YearOrder()
    ensures Total(YearLe) && Transitive(YearLe)
  {
  }

  /** `ORDER BY year ASC`: the same tuples, ascending by year. */
  function OrderByYear(rows: seq<Figures>): (r: seq<Figures>)
    ensures multiset(r) == multiset(rows)
    ensures SortedBy(r, YearLe)
  {
    YearOrder();
    SortSorted(rows, YearLe);
    Sort(rows, YearLe)
  }
}

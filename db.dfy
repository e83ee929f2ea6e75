/**
 * db.py: the access-checked reads `list_companies` and `get_balance_sheet`,
 * and the writes `add_balance_sheet_data` and `seed_data`.
 *
 * db.py decides who is a group administrator case-insensitively
 * (`Store.IsGroupAdmin`), unlike the copies of these reads in app.py.
 */
module Db {
  import opened Wrappers
  import opened Text
  import opened Ordering
  import opened Store
  import opened Query

  // =====================================================================
  // list_companies (db.py:10-22)

  function ListCompanies(companies: seq<Company>, user: Session): (r: seq<CompanyRef>)
    ensures |r| <= |companies|
    ensures IsGroupAdmin(user) ==> |r| == |companies|
    ensures forall id :: Listed(r, id) <==> HasCompanyId(companies, id) && (IsGroupAdmin(user) || Some(id) == user.companyId)
    ensures forall c :: c in r <==> exists co :: co in companies && co.id == c.id && co.name == c.name && (IsGroupAdmin(user) || Some(co.id) == user.companyId)
  {
    forall id ensures Listed(Refs(VisibleCompanies(companies, IsGroupAdmin(user), user.companyId)), id)
                      <==> HasCompanyId(companies, id) && (IsGroupAdmin(user) || Some(id) == user.companyId) {
      ListedVisible(companies, IsGroupAdmin(user), user.companyId, id);
    }
    forall c ensures c in Refs(VisibleCompanies(companies, IsGroupAdmin(user), user.companyId))
                     <==> exists co :: co in companies && co.id == c.id && co.name == c.name && (IsGroupAdmin(user) || Some(co.id) == user.companyId) {
      ListedRefs(companies, IsGroupAdmin(user), user.companyId, c);
    }
    Refs(VisibleCompanies(companies, IsGroupAdmin(user), user.companyId))
  }

  /** With unique company ids, anyone but a group administrator is listed at most one company. */
  lemma ListCompaniesNonAdmin(companies: seq<Company>, user: Session)
    requires forall i, j :: 0 <= i < j < |companies| ==> companies[i].id != companies[j].id
    requires !IsGroupAdmin(user)
    ensures |ListCompanies(companies, user)| <= 1
  {
    VisibleAtMostOne(companies, user.companyId);
  }

  /** Company ids are unique, so every listed pair carries the name stored under its id. */
  lemma ListCompaniesNames(companies: seq<Company>, user: Session, c: CompanyRef)
    requires forall i, j :: 0 <= i < j < |companies| ==> companies[i].id != companies[j].id
    requires c in ListCompanies(companies, user)
    ensures CompanyNameById(companies, c.id) == Some(c.name)
  {
    ListedName(companies, IsGroupAdmin(user), user.companyId, c);
  }

  // =====================================================================
  // get_balance_sheet (db.py:25-54)

  /** The tuple `(companies.name, year, revenue, assets, liabilities, profit)` of the join. */
  datatype NamedFigures = NamedFigures(name: string, figures: Figures)

  /** The two row shapes `get_balance_sheet` returns. */
  datatype Listing = Plain(rows: seq<Figures>) | Named(named: seq<NamedFigures>)

  function OfCompany(id: int): SheetRow -> bool {
    (row: SheetRow) => row.companyId == id
  }

  /** `WHERE company_id=?` with the user's `company_id`, which matches nothing when it is NULL. */
  function OfUser(user: Session): SheetRow -> bool {
    (row: SheetRow) => Some(row.companyId) == user.companyId
  }

  /**
   * `balance_sheets JOIN companies ON balance_sheets.company_id = companies.id`,
   * in balance_sheets order: a row whose company is missing has no partner
   * and drops out. Company ids are a primary key, so a row has at most one.
   */
  function Joined(sheets: seq<SheetRow>, companies: seq<Company>): (r: seq<NamedFigures>)
    ensures |r| <= |sheets|
  {
    if sheets == [] then []
    else
      (match CompanyNameById(companies, sheets[0].companyId)
       case Some(name) => [NamedFigures(name, FiguresOf(sheets[0]))]
       case None => [])
      + Joined(sheets[1..], companies)
  }

  /** The number of balance sheets whose company exists. */
  function CountWithCompany(sheets: seq<SheetRow>, companies: seq<Company>): (n: nat)
    ensures n <= |sheets|
    ensures (forall i :: 0 <= i < |sheets| ==> HasCompanyId(companies, sheets[i].companyId)) ==> n == |sheets|
  {
    if sheets == [] then 0
    else
      assert forall i :: 0 <= i < |sheets[1..]| ==> sheets[1..][i] == sheets[i + 1];
      (if HasCompanyId(companies, sheets[0].companyId) then 1 else 0) + CountWithCompany(sheets[1..], companies)
  }

  /** The join has one row for every balance sheet whose company exists, and no other. */
  lemma {:induction false} JoinedAll(sheets: seq<SheetRow>, companies: seq<Company>)
    ensures |Joined(sheets, companies)| == CountWithCompany(sheets, companies)
  {
    if sheets != [] {
      JoinedAll(sheets[1..], companies);
    }
  }

  /** `row` joins to `x`: its company exists under `x`'s name, and the figures are the row's. */
  predicate JoinsAs(row: SheetRow, companies: seq<Company>, x: NamedFigures) {
    CompanyNameById(companies, row.companyId) == Some(x.name) && FiguresOf(row) == x.figures
  }

  /**
   * A joined row is exactly the name of a stored balance sheet's company
   * together with that sheet's figures.
   */
  lemma {:induction false} JoinedMembers(sheets: seq<SheetRow>, companies: seq<Company>, x: NamedFigures)
    ensures x in Joined(sheets, companies) <==> exists i :: 0 <= i < |sheets| && JoinsAs(sheets[i], companies, x)
  {
    if sheets != [] {
      var tail := sheets[1..];
      JoinedMembers(tail, companies, x);
      JoinedHead(sheets, companies, x);
      if exists i :: 0 <= i < |sheets| && JoinsAs(sheets[i], companies, x) {
        var i :| 0 <= i < |sheets| && JoinsAs(sheets[i], companies, x);
        if i > 0 {
          assert tail[i - 1] == sheets[i];
        }
      }
      if exists i :: 0 <= i < |tail| && JoinsAs(tail[i], companies, x) {
        var i :| 0 <= i < |tail| && JoinsAs(tail[i], companies, x);
        assert sheets[i + 1] == tail[i];
      }
    }
  }

  /** One step of `Joined`: the first sheet contributes `x` exactly when it joins to `x`. */
  lemma JoinedHead(sheets: seq<SheetRow>, companies: seq<Company>, x: NamedFigures)
    requires sheets != []
    ensures x in Joined(sheets, companies) <==> JoinsAs(sheets[0], companies, x) || x in Joined(sheets[1..], companies)
  {
  }

  /** `ORDER BY companies.name, year` */
  predicate NameYearLe(a: NamedFigures, b: NamedFigures) {
    if a.name == b.name then a.figures.year <= b.figures.year else StrLe(a.name, b.name)
  }

  lemma NameYearOrder()
    ensures Total(NameYearLe) && Transitive(NameYearLe)
  {
    forall a, b ensures NameYearLe(a, b) || NameYearLe(b, a) {
      StrLeTotal(a.name, b.name);
    }
    forall a, b, c | NameYearLe(a, b) && NameYearLe(b, c) ensures NameYearLe(a, c) {
      if a.name != b.name && b.name != c.name {
        StrLeTransitive(a.name, b.name, c.name);
        if a.name == c.name {
          StrLeAntisymmetric(a.name, b.name);
        }
      }
    }
  }

  function OrderByNameYear(rows: seq<NamedFigures>): (r: seq<NamedFigures>)
    ensures multiset(r) == multiset(rows)
    ensures SortedBy(r, NameYearLe)
  {
    NameYearOrder();
    SortSorted(rows, NameYearLe);
    Sort(rows, NameYearLe)
  }

  /**
   * `get_balance_sheet(user, company_id)`: a requested company outside the
   * caller's listing gives `[]`; a group administrator who names a company
   * gets its rows by year; anyone else gets their own company's rows, in no
   * promised order; a group administrator who names none gets every row
   * with its company's name, by name and then year.
   */
  function GetBalanceSheet(companies: seq<Company>, sheets: seq<SheetRow>, user: Session, companyId: Option<int>): (r: Listing)
    ensures Truthy(companyId) && !(HasCompanyId(companies, companyId.value) && (IsGroupAdmin(user) || Some(companyId.value) == user.companyId))
            ==> r == Plain([])
    ensures Truthy(companyId) && HasCompanyId(companies, companyId.value) && IsGroupAdmin(user)
            ==> r.Plain? && multiset(r.rows) == multiset(Select(sheets, OfCompany(companyId.value))) && SortedBy(r.rows, YearLe)
    ensures !IsGroupAdmin(user) && (Truthy(companyId) ==> HasCompanyId(companies, companyId.value) && Some(companyId.value) == user.companyId)
            ==> r == Plain(Select(sheets, OfUser(user)))
    ensures IsGroupAdmin(user) && !Truthy(companyId)
            ==> r.Named? && multiset(r.named) == multiset(Joined(sheets, companies)) && SortedBy(r.named, NameYearLe)
  {
    var allowed := ListCompanies(companies, user);
    if Truthy(companyId) && !Listed(allowed, companyId.value) then Plain([])
    else if IsGroupAdmin(user) && Truthy(companyId) then Plain(OrderByYear(Select(sheets, OfCompany(companyId.value))))
    else if !IsGroupAdmin(user) then Plain(Select(sheets, OfUser(user)))
    else Named(OrderByNameYear(Joined(sheets, companies)))
  }

  /** Asking for another company than one's own gives nothing to anyone but a group administrator. */
  lemma ForeignCompanyDenied(companies: seq<Company>, sheets: seq<SheetRow>, user: Session, companyId: int)
    requires !IsGroupAdmin(user)
    requires companyId != 0 && Some(companyId) != user.companyId
    ensures GetBalanceSheet(companies, sheets, user, Some(companyId)) == Plain([])
  {
  }

  /** What anyone but a group administrator reads is exactly the rows of their own company. */
  lemma NonAdminOwnRows(companies: seq<Company>, sheets: seq<SheetRow>, user: Session, companyId: Option<int>, f: Figures)
    requires !IsGroupAdmin(user)
    ensures GetBalanceSheet(companies, sheets, user, companyId).Plain?
    ensures f in GetBalanceSheet(companies, sheets, user, companyId).rows
            ==> exists i :: 0 <= i < |sheets| && Some(sheets[i].companyId) == user.companyId && FiguresOf(sheets[i]) == f
    ensures !Truthy(companyId) || (HasCompanyId(companies, companyId.value) && Some(companyId.value) == user.companyId)
            ==> (f in GetBalanceSheet(companies, sheets, user, companyId).rows
                 <==> exists i :: 0 <= i < |sheets| && Some(sheets[i].companyId) == user.companyId && FiguresOf(sheets[i]) == f)
  {
    SelectMembers(sheets, OfUser(user), f);
  }

  /** A group administrator naming an existing company reads exactly its rows. */
  lemma AdminCompanyRows(companies: seq<Company>, sheets: seq<SheetRow>, user: Session, companyId: int, f: Figures)
    requires IsGroupAdmin(user) && companyId != 0 && HasCompanyId(companies, companyId)
    ensures f in GetBalanceSheet(companies, sheets, user, Some(companyId)).rows
            <==> exists i :: 0 <= i < |sheets| && sheets[i].companyId == companyId && FiguresOf(sheets[i]) == f
  {
    SelectMembers(sheets, OfCompany(companyId), f);
    var r := GetBalanceSheet(companies, sheets, user, Some(companyId));
    assert f in r.rows <==> f in multiset(r.rows);
  }

  /**
   * A group administrator naming no company reads one row for every balance
   * sheet whose company exists, each with that company's name and the sheet's
   * figures; a sheet whose company is missing drops out.
   */
  lemma AdminSeesAll(companies: seq<Company>, sheets: seq<SheetRow>, user: Session, companyId: Option<int>, x: NamedFigures)
    requires IsGroupAdmin(user) && !Truthy(companyId)
    ensures |GetBalanceSheet(companies, sheets, user, companyId).named| == CountWithCompany(sheets, companies)
    ensures x in GetBalanceSheet(companies, sheets, user, companyId).named
            <==> exists i :: 0 <= i < |sheets| && JoinsAs(sheets[i], companies, x)
  {
    JoinedAll(sheets, companies);
    JoinedMembers(sheets, companies, x);
    var r := GetBalanceSheet(companies, sheets, user, companyId);
    assert |r.named| == |multiset(r.named)|;
    assert x in r.named <==> x in multiset(r.named);
  }

  // =====================================================================
  // add_balance_sheet_data (db.py:145-169)

  /**
   * The balance_sheets table after `add_balance_sheet_data`: nothing changes
   * for an unknown company name; otherwise the row for the company's id and
   * `year` now holds the four given values, and every other key is as before.
   */
  function AddBalanceSheet(companies: seq<Company>, sheets: seq<SheetRow>, name: string, year: int,
                           revenue: Option<real>, assets: Option<real>, liabilities: Option<real>,
                           profit: Option<real>): (r: seq<SheetRow>)
    ensures !HasCompanyNamed(companies, name) ==> r == sheets
    ensures HasCompanyNamed(companies, name) ==>
      var id := CompanyIdByName(companies, name).value;
      forall k :: Lookup(r, k) == if k == (id, year) then Some(SheetRow(id, year, revenue, assets, liabilities, profit))
                                  else Lookup(sheets, k)
    ensures UniqueKeys(sheets) ==> UniqueKeys(r)
  {
    match CompanyIdByName(companies, name)
    case None => sheets
    case Some(id) => Upsert(sheets, SheetRow(id, year, revenue, assets, liabilities, profit))
  }

  /** Under the unique index the key is then stored exactly once. */
  lemma AddBalanceSheetOnce(companies: seq<Company>, sheets: seq<SheetRow>, name: string, year: int,
                            revenue: Option<real>, assets: Option<real>, liabilities: Option<real>, profit: Option<real>)
    requires UniqueKeys(sheets) && HasCompanyNamed(companies, name)
    ensures CountKey(AddBalanceSheet(companies, sheets, name, year, revenue, assets, liabilities, profit),
                     (CompanyIdByName(companies, name).value, year)) == 1
  {
    CountUnique(AddBalanceSheet(companies, sheets, name, year, revenue, assets, liabilities, profit),
                (CompanyIdByName(companies, name).value, year));
  }

  /** Repeating the same call changes nothing. */
  lemma AddBalanceSheetIdempotent(companies: seq<Company>, sheets: seq<SheetRow>, name: string, year: int,
                                  revenue: Option<real>, assets: Option<real>, liabilities: Option<real>, profit: Option<real>)
    ensures var once := AddBalanceSheet(companies, sheets, name, year, revenue, assets, liabilities, profit);
            AddBalanceSheet(companies, once, name, year, revenue, assets, liabilities, profit) == once
  {
    if HasCompanyNamed(companies, name) {
      UpsertIdempotent(sheets, SheetRow(CompanyIdByName(companies, name).value, year, revenue, assets, liabilities, profit));
    }
  }

  /** `add_balance_sheet_data(company_name, year, revenue, assets, liabilities, profit)`. */
  method AddBalanceSheetData(db: Database, name: string, year: int, revenue: Option<real>, assets: Option<real>,
                             liabilities: Option<real>, profit: Option<real>)
    requires db.Valid()
    modifies db
    ensures db.Valid()
    ensures db.companies == old(db.companies) && db.users == old(db.users)
    ensures db.sheets == AddBalanceSheet(old(db.companies.rows), old(db.sheets), name, year, revenue, assets, liabilities, profit)
  {
    var result := CompanyIdByName(db.companies.rows, name);
    if result.None? {
      return;
    }
    var companyId := result.value;
    db.sheets := Upsert(db.sheets, SheetRow(companyId, year, revenue, assets, liabilities, profit));
  }

  // =====================================================================
  // seed_data (db.py:99-143)

  const CompanySeeds: seq<(string, Option<string>)> := [
    ("Reliance Retail", Some("Reliance Group")),
    ("Jio Platforms", Some("Reliance Group")),
    ("Reliance Industries", Some("Reliance Group"))
  ]

  const UserSeeds: seq<UserSeed> := [
    UserSeed("rajiv", "pass123", "analyst", Some("Reliance Retail")),
    UserSeed("sneha", "pass123", "analyst", Some("Jio Platforms")),
    UserSeed("amit", "pass123", "ceo", Some("Reliance Retail")),
    UserSeed("ramesh", "pass123", "ceo", Some("Jio Platforms")),
    UserSeed("ambani", "ambani123", "GroupAdmin", None)
  ]

  /** A balance-sheet row as `seed_data` lists it, the company given by name. */
  datatype SheetSeed = SheetSeed(company: string, year: int, revenue: real, assets: real, liabilities: real, profit: real)

  const SheetSeeds: seq<SheetSeed> := [
    SheetSeed("Reliance Retail", 2022, 220000.0, 500000.0, 200000.0, 30000.0),
    SheetSeed("Reliance Retail", 2023, 260000.0, 520000.0, 210000.0, 35000.0),
    SheetSeed("Jio Platforms", 2022, 180000.0, 400000.0, 150000.0, 25000.0),
    SheetSeed("Jio Platforms", 2023, 202000.0, 420000.0, 160000.0, 28000.0),
    SheetSeed("Reliance Industries", 2022, 450000.0, 1000000.0, 600000.0, 70000.0),
    SheetSeed("Reliance Industries", 2023, 480000.0, 1050000.0, 620000.0, 75000.0)
  ]

  /** Every company the seed data refers to is among the seeded companies. */
  predicate SeedCompaniesPresent(companies: seq<Company>) {
    forall i :: 0 <= i < |CompanySeeds| ==> HasCompanyNamed(companies, CompanySeeds[i].0)
  }

  lemma SeededCompaniesPresent(t: CompanyTable)
    ensures SeedCompaniesPresent(InsertCompaniesOrIgnore(t, CompanySeeds).rows)
  {
    forall i | 0 <= i < |CompanySeeds| ensures HasCompanyNamed(InsertCompaniesOrIgnore(t, CompanySeeds).rows, CompanySeeds[i].0) {
      InsertCompaniesPresent(t, CompanySeeds, CompanySeeds[i].0);
    }
  }

  /** `company_map[name]`, where `company_map` maps every company name to its id. */
  function CompanyIdOf(companies: seq<Company>, name: string): int
    requires HasCompanyNamed(companies, name)
  {
    CompanyIdByName(companies, name).value
  }

  /** `company_map[...]` never fails for a seeded user. */
  lemma UserSeedCompanyPresent(companies: seq<Company>, k: nat)
    requires SeedCompaniesPresent(companies)
    requires k < |UserSeeds|
    ensures UserSeeds[k].company.Some? ==> HasCompanyNamed(companies, UserSeeds[k].company.value)
  {
    assert HasCompanyNamed(companies, CompanySeeds[0].0);
    assert HasCompanyNamed(companies, CompanySeeds[1].0);
  }

  /** The `company_id` a user seed is inserted with. */
  function SeedCompanyId(companies: seq<Company>, seed: UserSeed): Option<int>
    requires seed.company.Some? ==> HasCompanyNamed(companies, seed.company.value)
  {
    match seed.company
    case None => None
    case Some(name) => Some(CompanyIdOf(companies, name))
  }

  /** `executemany` of `INSERT OR IGNORE INTO users ...` over the first `n` user seeds. */
  function InsertUserSeeds(t: UserTable, n: nat, companies: seq<Company>): (r: UserTable)
    requires n <= |UserSeeds|
    requires SeedCompaniesPresent(companies)
    ensures UsersValid(t, CaseInsensitive) ==> UsersValid(r, CaseInsensitive)
    ensures |t.rows| <= |r.rows| && r.rows[..|t.rows|] == t.rows
  {
    if n == 0 then t
    else
      var mid := InsertUserSeeds(t, n - 1, companies);
      var seed := UserSeeds[n - 1];
      UserSeedCompanyPresent(companies, n - 1);
      var r := InsertUserOrIgnore(mid, AsWritten, seed, SeedCompanyId(companies, seed));
      assert r.rows[..|t.rows|] == r.rows[..|mid.rows|][..|t.rows|];
      r
  }

  /** After seeding, every seeded username exists (the schema admits every seeded role). */
  lemma {:induction false} UserSeedsTaken(t: UserTable, n: nat, companies: seq<Company>, k: nat)
    requires k < n <= |UserSeeds|
    requires SeedCompaniesPresent(companies)
    ensures UsernameTaken(InsertUserSeeds(t, n, companies).rows, UserSeeds[k].username)
  {
    var mid := InsertUserSeeds(t, n - 1, companies);
    var r := InsertUserSeeds(t, n, companies);
    if k < n - 1 {
      UserSeedsTaken(t, n - 1, companies, k);
      var i :| 0 <= i < |mid.rows| && mid.rows[i].username == UserSeeds[k].username;
      assert r.rows[i] == r.rows[..|mid.rows|][i];
    } else {
      assert RoleAdmitted(AsWritten, UserSeeds[k].role);
    }
  }

  /** Seeding users whose usernames all exist changes nothing. */
  lemma {:induction false} UserSeedsAllTaken(t: UserTable, n: nat, companies: seq<Company>)
    requires n <= |UserSeeds|
    requires SeedCompaniesPresent(companies)
    requires forall k :: 0 <= k < n ==> UsernameTaken(t.rows, UserSeeds[k].username)
    ensures InsertUserSeeds(t, n, companies) == t
  {
    if n > 0 {
      UserSeedsAllTaken(t, n - 1, companies);
      assert UsernameTaken(t.rows, UserSeeds[n - 1].username);
    }
  }

  /** The user row seed `k` is stored as, apart from its id. */
  predicate SeededUser(u: User, k: nat, companies: seq<Company>)
    requires k < |UserSeeds|
    requires SeedCompaniesPresent(companies)
  {
    UserSeedCompanyPresent(companies, k);
    var seed := UserSeeds[k];
    u.username == seed.username && u.password == seed.password && u.role == seed.role
    && u.companyId == SeedCompanyId(companies, seed)
  }

  /** No two user seeds share a username. */
  lemma UserSeedNamesDistinct(a: nat, b: nat)
    requires a < b < |UserSeeds|
    ensures UserSeeds[a].username != UserSeeds[b].username
  {
    assert UserSeeds[a].username[0] != UserSeeds[b].username[0] || |UserSeeds[a].username| != |UserSeeds[b].username|;
  }

  /** One step of the user seeding: the `n`-th seed inserted after the first `n - 1`. */
  lemma InsertUserSeedsStep(t: UserTable, n: nat, companies: seq<Company>)
    requires 0 < n <= |UserSeeds|
    requires SeedCompaniesPresent(companies)
    ensures UserSeeds[n - 1].company.Some? ==> HasCompanyNamed(companies, UserSeeds[n - 1].company.value)
    ensures InsertUserSeeds(t, n, companies)
            == InsertUserOrIgnore(InsertUserSeeds(t, n - 1, companies), AsWritten, UserSeeds[n - 1],
                                  SeedCompanyId(companies, UserSeeds[n - 1]))
  {
    UserSeedCompanyPresent(companies, n - 1);
  }

  /** Every user row seeding adds carries the username of one of the seeds inserted. */
  lemma {:induction false} UserSeedsAdded(t: UserTable, n: nat, companies: seq<Company>, i: nat)
    requires n <= |UserSeeds|
    requires SeedCompaniesPresent(companies)
    requires |t.rows| <= i < |InsertUserSeeds(t, n, companies).rows|
    ensures exists k :: 0 <= k < n && InsertUserSeeds(t, n, companies).rows[i].username == UserSeeds[k].username
  {
    assert 0 < n;
    var mid := InsertUserSeeds(t, n - 1, companies);
    var r := InsertUserSeeds(t, n, companies);
    InsertUserSeedsStep(t, n, companies);
    var seed := UserSeeds[n - 1];
    var cid := SeedCompanyId(companies, seed);
    if i < |mid.rows| {
      UserSeedsAdded(t, n - 1, companies, i);
      assert r.rows[i] == r.rows[..|mid.rows|][i];
    } else {
      InsertUserOrIgnoreAdded(mid, AsWritten, seed, cid, i);
      assert r.rows[i].username == UserSeeds[n - 1].username;
    }
  }

  /** Seeds before `k` do not take seed `k`'s username. */
  lemma UserSeedNameFree(t: UserTable, k: nat, companies: seq<Company>)
    requires k < |UserSeeds|
    requires SeedCompaniesPresent(companies)
    requires !UsernameTaken(t.rows, UserSeeds[k].username)
    ensures !UsernameTaken(InsertUserSeeds(t, k, companies).rows, UserSeeds[k].username)
  {
    var mid := InsertUserSeeds(t, k, companies);
    forall i | 0 <= i < |mid.rows| ensures mid.rows[i].username != UserSeeds[k].username {
      if i < |t.rows| {
        assert mid.rows[i] == mid.rows[..|t.rows|][i];
      } else {
        UserSeedsAdded(t, k, companies, i);
        var k' :| 0 <= k' < k && mid.rows[i].username == UserSeeds[k'].username;
        UserSeedNamesDistinct(k', k);
      }
    }
  }

  /** A seed whose username was free is stored with the seed's password, role and company. */
  lemma {:induction false} UserSeedsStored(t: UserTable, n: nat, companies: seq<Company>, k: nat)
    requires k < n <= |UserSeeds|
    requires SeedCompaniesPresent(companies)
    requires !UsernameTaken(t.rows, UserSeeds[k].username)
    ensures exists j :: 0 <= j < |InsertUserSeeds(t, n, companies).rows|
                        && SeededUser(InsertUserSeeds(t, n, companies).rows[j], k, companies)
  {
    var mid := InsertUserSeeds(t, n - 1, companies);
    var r := InsertUserSeeds(t, n, companies);
    InsertUserSeedsStep(t, n, companies);
    if k < n - 1 {
      UserSeedsStored(t, n - 1, companies, k);
      var j :| 0 <= j < |mid.rows| && SeededUser(mid.rows[j], k, companies);
      assert r.rows[j] == r.rows[..|mid.rows|][j];
    } else {
      var seed := UserSeeds[k];
      var cid := SeedCompanyId(companies, seed);
      UserSeedNameFree(t, k, companies);
      assert RoleAdmitted(AsWritten, seed.role);
      assert r.rows == mid.rows + [User(mid.nextId, seed.username, seed.password, seed.role, cid)];
      assert SeededUser(r.rows[|mid.rows|], k, companies);
    }
  }

  /** Distinct company names have distinct ids when ids are unique. */
  lemma CompanyIdsDistinct(companies: seq<Company>, a: string, b: string)
    requires forall i, j :: 0 <= i < j < |companies| ==> companies[i].id != companies[j].id
    requires HasCompanyNamed(companies, a) && HasCompanyNamed(companies, b) && a != b
    ensures CompanyIdOf(companies, a) != CompanyIdOf(companies, b)
  {
    var i :| 0 <= i < |companies| && companies[i].name == a && companies[i].id == CompanyIdOf(companies, a);
    var j :| 0 <= j < |companies| && companies[j].name == b && companies[j].id == CompanyIdOf(companies, b);
    assert i != j;
  }

  /** The balance-sheet rows `seed_data` inserts, with company names resolved. */
  function SheetSeedRows(companies: seq<Company>): (r: seq<SheetRow>)
    requires SeedCompaniesPresent(companies)
    ensures |r| == |SheetSeeds|
    ensures forall i :: 0 <= i < |r| ==> r[i].year == SheetSeeds[i].year
    ensures forall i :: 0 <= i < |r| ==> HasCompanyNamed(companies, SheetSeeds[i].company)
                                          && r[i].companyId == CompanyIdOf(companies, SheetSeeds[i].company)
  {
    assert forall i :: 0 <= i < |SheetSeeds| ==> HasCompanyNamed(companies, SheetSeeds[i].company) by {
      forall i | 0 <= i < |SheetSeeds| ensures HasCompanyNamed(companies, SheetSeeds[i].company) {
        assert SheetSeeds[i].company == CompanySeeds[0].0 || SheetSeeds[i].company == CompanySeeds[1].0
            || SheetSeeds[i].company == CompanySeeds[2].0;
      }
    }
    seq(|SheetSeeds|, i requires 0 <= i < |SheetSeeds| =>
      var s := SheetSeeds[i];
      assert s.company == CompanySeeds[0].0 || s.company == CompanySeeds[1].0 || s.company == CompanySeeds[2].0;
      SheetRow(CompanyIdOf(companies, s.company), s.year, Some(s.revenue), Some(s.assets), Some(s.liabilities), Some(s.profit)))
  }

  /** With unique company ids, no two seeded balance sheets share a `(company_id, year)` key. */
  lemma SheetSeedKeysUnique(companies: seq<Company>)
    requires SeedCompaniesPresent(companies)
    requires forall i, j :: 0 <= i < j < |companies| ==> companies[i].id != companies[j].id
    ensures UniqueKeys(SheetSeedRows(companies))
  {
    var rows := SheetSeedRows(companies);
    forall i, j | 0 <= i < j < |rows| ensures Key(rows[i]) != Key(rows[j]) {
      var a := SheetSeeds[i].company;
      var b := SheetSeeds[j].company;
      if a != b {
        CompanyIdsDistinct(companies, a, b);
      } else {
        assert |a| == |b|;
        assert SheetSeeds[i].year != SheetSeeds[j].year;
      }
    }
  }

  /** Under unique keys, the lookup of a row's key finds that row. */
  lemma LookupOwnKey(s: seq<SheetRow>, i: nat)
    requires UniqueKeys(s) && i < |s|
    ensures Lookup(s, Key(s[i])) == Some(s[i])
  {
    var r := Lookup(s, Key(s[i])).value;
    var j :| 0 <= j < |s| && s[j] == r;
    assert j == i;
  }

  /**
   * The tables after `seed_data()`: the companies, then the users, then the
   * balance sheets, each inserted with `INSERT OR IGNORE` under the unique
   * (company_id, year) index.
   */
  function Seed(t: Tables): (r: Tables)
    ensures TablesValid(t) ==> TablesValid(r)
    ensures SeedCompaniesPresent(r.companies.rows)
    ensures |t.companies.rows| <= |r.companies.rows| && r.companies.rows[..|t.companies.rows|] == t.companies.rows
    ensures |t.users.rows| <= |r.users.rows| && r.users.rows[..|t.users.rows|] == t.users.rows
    ensures forall k :: 0 <= k < |UserSeeds| ==> UsernameTaken(r.users.rows, UserSeeds[k].username)
    ensures |t.sheets| <= |r.sheets| && r.sheets[..|t.sheets|] == t.sheets
    ensures forall k :: 0 <= k < |UserSeeds| && !UsernameTaken(t.users.rows, UserSeeds[k].username) ==>
              exists j :: 0 <= j < |r.users.rows| && SeededUser(r.users.rows[j], k, r.companies.rows)
    ensures forall i :: 0 <= i < |SheetSeeds| ==> Lookup(r.sheets, Key(SheetSeedRows(r.companies.rows)[i])).Some?
    ensures forall k :: Lookup(r.sheets, k) ==
              if Lookup(t.sheets, k).Some? then Lookup(t.sheets, k) else Lookup(SheetSeedRows(r.companies.rows), k)
  {
    var companies := InsertCompaniesOrIgnore(t.companies, CompanySeeds);
    SeededCompaniesPresent(t.companies);
    var users := InsertUserSeeds(t.users, |UserSeeds|, companies.rows);
    forall k | 0 <= k < |UserSeeds| ensures UsernameTaken(users.rows, UserSeeds[k].username) {
      UserSeedsTaken(t.users, |UserSeeds|, companies.rows, k);
    }
    var rows := SheetSeedRows(companies.rows);
    var sheets := InsertSheetsOrIgnore(t.sheets, rows);
    forall i | 0 <= i < |SheetSeeds| ensures Lookup(sheets, Key(rows[i])).Some? {
      InsertSheetsPresent(t.sheets, rows, i);
    }
    forall k | 0 <= k < |UserSeeds| && !UsernameTaken(t.users.rows, UserSeeds[k].username)
      ensures exists j :: 0 <= j < |users.rows| && SeededUser(users.rows[j], k, companies.rows)
    {
      UserSeedsStored(t.users, |UserSeeds|, companies.rows, k);
    }
    forall k ensures Lookup(sheets, k) == if Lookup(t.sheets, k).Some? then Lookup(t.sheets, k) else Lookup(rows, k) {
      InsertSheetsLookup(t.sheets, rows, k);
    }
    Tables(companies, users, sheets)
  }

  /** A seeded balance sheet whose key was free is stored with the seed's figures. */
  lemma SeedStoresFigures(t: Tables, i: nat)
    requires TablesValid(t)
    requires i < |SheetSeeds|
    ensures var r := Seed(t);
            var seed := SheetSeeds[i];
            var key := (CompanyIdOf(r.companies.rows, seed.company), seed.year);
            Lookup(t.sheets, key).None? ==>
              Lookup(r.sheets, key) == Some(SheetRow(key.0, key.1, Some(seed.revenue), Some(seed.assets),
                                                     Some(seed.liabilities), Some(seed.profit)))
  {
    var r := Seed(t);
    var rows := SheetSeedRows(r.companies.rows);
    SheetSeedKeysUnique(r.companies.rows);
    LookupOwnKey(rows, i);
  }

  /** Seeding a second time changes nothing. */
  lemma SeedIdempotent(t: Tables)
    ensures Seed(Seed(t)) == Seed(t)
  {
    var once := Seed(t);
    InsertCompaniesAllPresent(once.companies, CompanySeeds);
    UserSeedsAllTaken(once.users, |UserSeeds|, once.companies.rows);
    var companies := InsertCompaniesOrIgnore(t.companies, CompanySeeds);
    assert once.companies == companies;
    InsertSheetsIdempotent(t.sheets, SheetSeedRows(companies.rows));
  }

  /** `seed_data()` */
  method SeedData(db: Database)
    requires db.Valid()
    modifies db
    ensures db.Valid()
    ensures db.State() == Seed(old(db.State()))
  {
    db.companies := InsertCompaniesOrIgnore(db.companies, CompanySeeds);
    SeededCompaniesPresent(old(db.companies));
    db.users := InsertUserSeeds(db.users, |UserSeeds|, db.companies.rows);
    db.sheets := InsertSheetsOrIgnore(db.sheets, SheetSeedRows(db.companies.rows));
  }

  // =====================================================================
  // Without the unique index: db.py's own schema (db.py:82-93) declares no
  // unique key on (company_id, year), so on a database `extract_pdf` has not
  // yet touched, `INSERT OR IGNORE` into balance_sheets never conflicts.

  /** `executemany` of `INSERT OR IGNORE` into balance_sheets as db.py's schema has it: every row is added. */
  function InsertSheetsNoIndex(s: seq<SheetRow>, rows: seq<SheetRow>): (r: seq<SheetRow>)
    ensures |r| == |s| + |rows|
    ensures forall k :: CountKey(r, k) == CountKey(s, k) + CountKey(rows, k)
  {
    forall k ensures CountKey(s + rows, k) == CountKey(s, k) + CountKey(rows, k) {
      CountKeyConcat(s, rows, k);
    }
    s + rows
  }

  /** So running `seed_data` twice stores each seeded balance sheet twice. */
  lemma SeedTwiceNoIndexDuplicates(s: seq<SheetRow>, companies: seq<Company>, i: nat)
    requires SeedCompaniesPresent(companies)
    requires i < |SheetSeeds|
    ensures var rows := SheetSeedRows(companies);
            CountKey(InsertSheetsNoIndex(InsertSheetsNoIndex(s, rows), rows), Key(rows[i])) >= 2
  {
    CountKeyPresent(SheetSeedRows(companies), i);
  }

  /** Under the unique index each seeded balance sheet is stored once, however often `seed_data` runs. */
  lemma SeedTwiceStoresOnce(t: Tables, i: nat)
    requires TablesValid(t)
    requires i < |SheetSeeds|
    ensures var twice := Seed(Seed(t));
            CountKey(twice.sheets, Key(SheetSeedRows(twice.companies.rows)[i])) == 1
  {
    SeedIdempotent(t);
    CountUnique(Seed(t).sheets, Key(SheetSeedRows(Seed(t).companies.rows)[i]));
  }
}

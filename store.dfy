/**
 * The SQLite database `balance_gpt.db` as in-memory tables: `companies`,
 * `users` and `balance_sheets` (db.py:57-93), with their unique constraints
 * as invariants and the unique index on `balance_sheets(company_id, year)`
 * that extract_pdf.py:15-18 creates. Rows are kept in rowid order.
 *
 * The pure functions here are the table-level effects of the SQL statements
 * the program issues: `INSERT ... ON CONFLICT(company_id, year) DO UPDATE`
 * (an upsert), `INSERT OR IGNORE` and plain `INSERT`.
 */
module Store {
  import opened Wrappers
  import opened Text

  // =====================================================================
  // companies(id INTEGER PRIMARY KEY AUTOINCREMENT, name TEXT UNIQUE NOT NULL, parent_group TEXT)

  datatype Company = Company(id: int, name: string, parentGroup: Option<string>)

  /** The rows and the next AUTOINCREMENT value. */
  datatype CompanyTable = CompanyTable(rows: seq<Company>, nextId: int)

  ghost predicate CompaniesValid(t: CompanyTable) {
    && 1 <= t.nextId
    && (forall i :: 0 <= i < |t.rows| ==> 1 <= t.rows[i].id < t.nextId)
    && (forall i, j :: 0 <= i < j < |t.rows| ==> t.rows[i].id != t.rows[j].id)
    && (forall i, j :: 0 <= i < j < |t.rows| ==> t.rows[i].name != t.rows[j].name)
  }

  predicate HasCompanyNamed(rows: seq<Company>, name: string) {
    exists i :: 0 <= i < |rows| && rows[i].name == name
  }

  /** `SELECT id FROM companies WHERE name=?` followed by `fetchone()`. */
  function CompanyIdByName(rows: seq<Company>, name: string): (r: Option<int>)
    ensures r.Some? <==> HasCompanyNamed(rows, name)
    ensures r.Some? ==> exists i :: 0 <= i < |rows| && rows[i].name == name && rows[i].id == r.value
  {
    if rows == [] then None
    else if rows[0].name == name then Some(rows[0].id)
    else
      var r := CompanyIdByName(rows[1..], name);
      assert forall i :: 0 <= i < |rows[1..]| ==> rows[1..][i] == rows[i + 1];
      r
  }

  predicate HasCompanyId(rows: seq<Company>, id: int) {
    exists i :: 0 <= i < |rows| && rows[i].id == id
  }

  /** The name of the company with primary key `id`, if there is one. */
  function CompanyNameById(rows: seq<Company>, id: int): (r: Option<string>)
    ensures r.Some? <==> HasCompanyId(rows, id)
    ensures r.Some? ==> exists i :: 0 <= i < |rows| && rows[i].id == id && rows[i].name == r.value
  {
    if rows == [] then None
    else if rows[0].id == id then Some(rows[0].name)
    else
      var r := CompanyNameById(rows[1..], id);
      assert forall i :: 0 <= i < |rows[1..]| ==> rows[1..][i] == rows[i + 1];
      r
  }

  /** `INSERT OR IGNORE INTO companies (name, parent_group) VALUES (?,?)`. */
  function InsertCompanyOrIgnore(t: CompanyTable, name: string, parent: Option<string>): (r: CompanyTable)
    ensures CompaniesValid(t) ==> CompaniesValid(r)
    ensures HasCompanyNamed(r.rows, name)
    ensures |t.rows| <= |r.rows| && r.rows[..|t.rows|] == t.rows
    ensures HasCompanyNamed(t.rows, name) ==> r == t
    ensures !HasCompanyNamed(t.rows, name) ==>
              r == CompanyTable(t.rows + [Company(t.nextId, name, parent)], t.nextId + 1)
  {
    if HasCompanyNamed(t.rows, name) then t
    else
      var r := CompanyTable(t.rows + [Company(t.nextId, name, parent)], t.nextId + 1);
      assert r.rows[|t.rows|].name == name;
      r
  }

  /** `executemany` of the statement above, in list order. */
  function InsertCompaniesOrIgnore(t: CompanyTable, seeds: seq<(string, Option<string>)>): (r: CompanyTable)
    ensures CompaniesValid(t) ==> CompaniesValid(r)
    ensures |t.rows| <= |r.rows| && r.rows[..|t.rows|] == t.rows
  {
    if seeds == [] then t
    else
      var last := seeds[|seeds| - 1];
      var mid := InsertCompaniesOrIgnore(t, seeds[..|seeds| - 1]);
      var r := InsertCompanyOrIgnore(mid, last.0, last.1);
      assert r.rows[..|t.rows|] == r.rows[..|mid.rows|][..|t.rows|];
      r
  }

  lemma {:induction false} InsertCompaniesPresent(t: CompanyTable, seeds: seq<(string, Option<string>)>, name: string)
    requires HasCompanyNamed(t.rows, name) || exists i :: 0 <= i < |seeds| && seeds[i].0 == name
    ensures HasCompanyNamed(InsertCompaniesOrIgnore(t, seeds).rows, name)
  {
    if seeds != [] {
      var last := seeds[|seeds| - 1];
      var init := seeds[..|seeds| - 1];
      var mid := InsertCompaniesOrIgnore(t, init);
      if last.0 != name {
        if !HasCompanyNamed(t.rows, name) {
          var i :| 0 <= i < |seeds| && seeds[i].0 == name;
          assert init[i].0 == name;
        }
        InsertCompaniesPresent(t, init, name);
        var r := InsertCompanyOrIgnore(mid, last.0, last.1);
        var j :| 0 <= j < |mid.rows| && mid.rows[j].name == name;
        assert r.rows[j] == r.rows[..|mid.rows|][j];
      }
    }
  }

  /** When every name is already present, `INSERT OR IGNORE` changes nothing. */
  lemma {:induction false} InsertCompaniesAllPresent(t: CompanyTable, seeds: seq<(string, Option<string>)>)
    requires forall i :: 0 <= i < |seeds| ==> HasCompanyNamed(t.rows, seeds[i].0)
    ensures InsertCompaniesOrIgnore(t, seeds) == t
  {
    if seeds != [] {
      InsertCompaniesAllPresent(t, seeds[..|seeds| - 1]);
      assert HasCompanyNamed(t.rows, seeds[|seeds| - 1].0);
    }
  }

  /**
   * The access scope rule: a group administrator sees every company, anyone
   * else only the company whose id is their own `company_id` (none when it
   * is NULL, since `id = NULL` matches no row). Table order is kept.
   */
  function VisibleCompanies(rows: seq<Company>, admin: bool, companyId: Option<int>): (r: seq<Company>)
    ensures |r| <= |rows|
    ensures forall c :: c in r <==> c in rows && (admin || Some(c.id) == companyId)
    ensures admin ==> r == rows
  {
    if rows == [] then []
    else (if admin || Some(rows[0].id) == companyId then [rows[0]] else []) + VisibleCompanies(rows[1..], admin, companyId)
  }

  /** Company ids are unique, so a non-administrator sees at most one company. */
  lemma {:induction false} VisibleAtMostOne(rows: seq<Company>, companyId: Option<int>)
    requires forall i, j :: 0 <= i < j < |rows| ==> rows[i].id != rows[j].id
    ensures |VisibleCompanies(rows, false, companyId)| <= 1
  {
    if rows != [] {
      VisibleAtMostOne(rows[1..], companyId);
      if Some(rows[0].id) == companyId {
        forall k | 0 <= k < |rows[1..]| ensures Some(rows[1..][k].id) != companyId {
          assert rows[1..][k] == rows[k + 1];
        }
        VisibleNone(rows[1..], companyId);
      }
    }
  }

  lemma {:induction false} VisibleNone(rows: seq<Company>, companyId: Option<int>)
    requires forall i :: 0 <= i < |rows| ==> Some(rows[i].id) != companyId
    ensures VisibleCompanies(rows, false, companyId) == []
  {
    if rows != [] {
      VisibleNone(rows[1..], companyId);
    }
  }

  /** The `user` dictionary: what `check_user` returns and the client sends back. */
  datatype Session = Session(id: int, username: string, role: string, companyId: Option<int>)

  /** `user["role"].lower() == "groupadmin"`: the administrator test of db.py and extract_pdf.py. */
  predicate IsGroupAdmin(user: Session) {
    Lower(user.role) == "groupadmin"
  }

  // =====================================================================
  // users(id, username TEXT UNIQUE NOT NULL, password TEXT NOT NULL,
  //       role TEXT NOT NULL CHECK(role IN ('analyst','ceo','GroupAdmin')), company_id INTEGER)

  datatype User = User(id: int, username: string, password: string, role: string, companyId: Option<int>)

  datatype UserTable = UserTable(rows: seq<User>, nextId: int)

  /** Which role strings the `users.role` CHECK constraint admits: the schema
      as written, or the case-insensitive check the code evidently expects. */
  datatype RoleCheck = AsWritten | CaseInsensitive

  predicate RoleAdmitted(check: RoleCheck, role: string) {
    match check
    case AsWritten => role == "analyst" || role == "ceo" || role == "GroupAdmin"
    case CaseInsensitive => Lower(role) == "analyst" || Lower(role) == "ceo" || Lower(role) == "groupadmin"
  }

  /** Every role the schema as written admits is admitted case-insensitively too. */
  lemma AsWrittenAdmitsLess(role: string)
    ensures RoleAdmitted(AsWritten, role) ==> RoleAdmitted(CaseInsensitive, role)
  {
    if role == "GroupAdmin" {
      var l := Lower(role);
      assert l == [l[0], l[1], l[2], l[3], l[4], l[5], l[6], l[7], l[8], l[9]];
    } else if role == "analyst" || role == "ceo" {
      LowerUnchanged(role);
    }
  }

  ghost predicate UsersValid(t: UserTable, check: RoleCheck) {
    && 1 <= t.nextId
    && (forall i :: 0 <= i < |t.rows| ==> 1 <= t.rows[i].id < t.nextId)
    && (forall i, j :: 0 <= i < j < |t.rows| ==> t.rows[i].id != t.rows[j].id)
    && (forall i, j :: 0 <= i < j < |t.rows| ==> t.rows[i].username != t.rows[j].username)
    && (forall i :: 0 <= i < |t.rows| ==> RoleAdmitted(check, t.rows[i].role))
  }

  predicate UsernameTaken(rows: seq<User>, username: string) {
    exists i :: 0 <= i < |rows| && rows[i].username == username
  }

  /**
   * `INSERT INTO users (username, password, role, company_id) VALUES (?,?,?,?)`:
   * the new table, or `None` where SQLite raises `IntegrityError` (a NULL
   * username or password, a role the CHECK refuses, a username already
   * present). Foreign keys are not enforced (SQLite's default).
   */
  function InsertUser(t: UserTable, check: RoleCheck, username: Option<string>, password: Option<string>,
                      role: string, companyId: Option<int>): (r: Option<UserTable>)
    ensures r.Some? <==> username.Some? && password.Some? && RoleAdmitted(check, role)
                         && !UsernameTaken(t.rows, username.value)
    ensures r.Some? ==> |r.value.rows| == |t.rows| + 1 && r.value.rows[..|t.rows|] == t.rows
    ensures r.Some? ==> r.value.rows[|t.rows|] == User(t.nextId, username.value, password.value, role, companyId)
    ensures r.Some? ==> r.value.nextId == t.nextId + 1
    ensures r.Some? && UsersValid(t, check) ==> UsersValid(r.value, check)
  {
    if username.None? || password.None? || !RoleAdmitted(check, role) || UsernameTaken(t.rows, username.value) then
      None
    else
      Some(UserTable(t.rows + [User(t.nextId, username.value, password.value, role, companyId)], t.nextId + 1))
  }

  /** An insert the schema accepts keeps the table valid under the case-insensitive role check too. */
  lemma InsertUserCaseInsensitive(t: UserTable, check: RoleCheck, username: Option<string>, password: Option<string>,
                                  role: string, companyId: Option<int>)
    requires InsertUser(t, check, username, password, role, companyId).Some?
    ensures UsersValid(t, CaseInsensitive) ==> UsersValid(InsertUser(t, check, username, password, role, companyId).value, CaseInsensitive)
  {
    AsWrittenAdmitsLess(role);
    var r := InsertUser(t, check, username, password, role, companyId).value;
    if UsersValid(t, CaseInsensitive) {
      assert RoleAdmitted(CaseInsensitive, r.rows[|t.rows|].role);
      forall i | 0 <= i < |r.rows| ensures RoleAdmitted(CaseInsensitive, r.rows[i].role) {
        if i < |t.rows| {
          assert r.rows[i] == r.rows[..|t.rows|][i];
        }
      }
    }
  }

  /** `INSERT OR IGNORE` of one user: a failed insert leaves the table as it was. */
  function InsertUserOrIgnore(t: UserTable, check: RoleCheck, seed: UserSeed, companyId: Option<int>): (r: UserTable)
    ensures UsersValid(t, check) ==> UsersValid(r, check)
    ensures UsersValid(t, CaseInsensitive) ==> UsersValid(r, CaseInsensitive)
    ensures |t.rows| <= |r.rows| && r.rows[..|t.rows|] == t.rows
    ensures RoleAdmitted(check, seed.role) ==> UsernameTaken(r.rows, seed.username)
    ensures UsernameTaken(t.rows, seed.username) ==> r == t
    ensures !RoleAdmitted(check, seed.role) ==> r == t
    ensures RoleAdmitted(check, seed.role) && !UsernameTaken(t.rows, seed.username) ==>
              r == UserTable(t.rows + [User(t.nextId, seed.username, seed.password, seed.role, companyId)], t.nextId + 1)
  {
    match InsertUser(t, check, Some(seed.username), Some(seed.password), seed.role, companyId)
    case Some(u) =>
      InsertUserCaseInsensitive(t, check, Some(seed.username), Some(seed.password), seed.role, companyId);
      assert u.rows == u.rows[..|t.rows|] + [u.rows[|t.rows|]];
      u
    case None => t
  }

  /** A row `INSERT OR IGNORE` adds is the one new user, built from the seed. */
  lemma InsertUserOrIgnoreAdded(t: UserTable, check: RoleCheck, seed: UserSeed, companyId: Option<int>, i: nat)
    requires |t.rows| <= i < |InsertUserOrIgnore(t, check, seed, companyId).rows|
    ensures i == |t.rows|
    ensures InsertUserOrIgnore(t, check, seed, companyId).rows[i]
            == User(t.nextId, seed.username, seed.password, seed.role, companyId)
  {
  }

  /** A user row as `seed_data` lists it, the company given by name. */
  datatype UserSeed = UserSeed(username: string, password: string, role: string, company: Option<string>)

  // =====================================================================
  // balance_sheets(id, company_id INTEGER NOT NULL, year INTEGER NOT NULL,
  //                revenue REAL, assets REAL, liabilities REAL, profit REAL)
  // with UNIQUE INDEX idx_company_year ON balance_sheets(company_id, year)

  datatype SheetRow = SheetRow(companyId: int, year: int, revenue: Option<real>, assets: Option<real>,
                               liabilities: Option<real>, profit: Option<real>)

  /** The natural key `(company_id, year)`. */
  function Key(r: SheetRow): (int, int) {
    (r.companyId, r.year)
  }

  ghost predicate UniqueKeys(s: seq<SheetRow>) {
    forall i, j :: 0 <= i < j < |s| ==> Key(s[i]) != Key(s[j])
  }

  /** The row stored under key `k`, if any (the first one, were there several). */
  function Lookup(s: seq<SheetRow>, k: (int, int)): (r: Option<SheetRow>)
    ensures r.Some? ==> Key(r.value) == k && r.value in s
    ensures r.None? <==> forall i :: 0 <= i < |s| ==> Key(s[i]) != k
  {
    if s == [] then None
    else if Key(s[0]) == k then Some(s[0])
    else
      var r := Lookup(s[1..], k);
      assert forall i :: 1 <= i < |s| ==> s[i] == s[1..][i - 1];
      r
  }

  /** Appending a row changes the lookup only of its key, and only when that key was absent. */
  lemma {:induction false} LookupSnoc(s: seq<SheetRow>, row: SheetRow, k: (int, int))
    ensures Lookup(s + [row], k) ==
            if Lookup(s, k).Some? then Lookup(s, k) else if Key(row) == k then Some(row) else None
  {
    if s != [] {
      assert (s + [row])[0] == s[0] && (s + [row])[1..] == s[1..] + [row];
      LookupSnoc(s[1..], row, k);
    }
  }

  /** How many rows carry key `k`. */
  function CountKey(s: seq<SheetRow>, k: (int, int)): nat {
    if s == [] then 0 else (if Key(s[0]) == k then 1 else 0) + CountKey(s[1..], k)
  }

  lemma {:induction false} CountKeyConcat(a: seq<SheetRow>, b: seq<SheetRow>, k: (int, int))
    ensures CountKey(a + b, k) == CountKey(a, k) + CountKey(b, k)
  {
    if a != [] {
      assert (a + b)[0] == a[0] && (a + b)[1..] == a[1..] + b;
      CountKeyConcat(a[1..], b, k);
    } else {
      assert a + b == b;
    }
  }

  lemma {:induction false} CountKeyPresent(s: seq<SheetRow>, i: nat)
    requires i < |s|
    ensures CountKey(s, Key(s[i])) >= 1
  {
    if i > 0 {
      CountKeyPresent(s[1..], i - 1);
    }
  }

  /** Under the unique index a key is stored once or not at all. */
  lemma {:induction false} CountUnique(s: seq<SheetRow>, k: (int, int))
    requires UniqueKeys(s)
    ensures CountKey(s, k) == if Lookup(s, k).Some? then 1 else 0
  {
    if s != [] {
      assert UniqueKeys(s[1..]) by {
        forall i, j | 0 <= i < j < |s[1..]| ensures Key(s[1..][i]) != Key(s[1..][j]) {
          assert s[1..][i] == s[i + 1] && s[1..][j] == s[j + 1];
        }
      }
      CountUnique(s[1..], k);
      if Key(s[0]) == k {
        forall i | 0 <= i < |s[1..]| ensures Key(s[1..][i]) != k {
          assert s[1..][i] == s[i + 1];
        }
      }
    }
  }

  /**
   * One `INSERT ... ON CONFLICT(company_id, year) DO UPDATE SET revenue=...,
   * assets=..., liabilities=..., profit=...`: the row with the same key is
   * overwritten in place, or the row is appended.
   */
  function Upsert(s: seq<SheetRow>, row: SheetRow): (r: seq<SheetRow>)
    ensures forall k :: Lookup(r, k) == if k == Key(row) then Some(row) else Lookup(s, k)
    ensures UniqueKeys(s) ==> UniqueKeys(r)
  {
    if s == [] then [row]
    else if Key(s[0]) == Key(row) then
      var r := [row] + s[1..];
      assert r[1..] == s[1..];
      assert UniqueKeys(s) ==> UniqueKeys(r) by {
        if UniqueKeys(s) {
          forall i, j | 0 <= i < j < |r| ensures Key(r[i]) != Key(r[j]) {
            assert r[j] == s[j];
            if i > 0 { assert r[i] == s[i]; }
          }
        }
      }
      r
    else
      var tail := Upsert(s[1..], row);
      var r := [s[0]] + tail;
      assert r[1..] == tail;
      assert UniqueKeys(s) ==> UniqueKeys(r) by {
        if UniqueKeys(s) {
          assert UniqueKeys(s[1..]) by {
            forall i, j | 0 <= i < j < |s[1..]| ensures Key(s[1..][i]) != Key(s[1..][j]) {
              assert s[1..][i] == s[i + 1] && s[1..][j] == s[j + 1];
            }
          }
          assert Lookup(s[1..], Key(s[0])).None? by {
            forall i | 0 <= i < |s[1..]| ensures Key(s[1..][i]) != Key(s[0]) {
              assert s[1..][i] == s[i + 1];
            }
          }
          assert Lookup(tail, Key(s[0])).None?;
          forall i, j | 0 <= i < j < |r| ensures Key(r[i]) != Key(r[j]) {
            assert r[j] == tail[j - 1];
            if i > 0 { assert r[i] == tail[i - 1]; }
          }
        }
      }
      r
  }

  /** Upserting the same row twice stores what upserting it once does. */
  lemma {:induction false} UpsertIdempotent(s: seq<SheetRow>, row: SheetRow)
    ensures Upsert(Upsert(s, row), row) == Upsert(s, row)
  {
    if s != [] && Key(s[0]) != Key(row) {
      UpsertIdempotent(s[1..], row);
      assert Upsert(s, row)[1..] == Upsert(s[1..], row);
    } else if s != [] {
      assert Upsert(s, row)[1..] == s[1..];
    }
  }

  /** A second upsert of the same key overwrites the first entirely. */
  lemma {:induction false} UpsertOverwrite(s: seq<SheetRow>, first: SheetRow, second: SheetRow)
    requires Key(first) == Key(second)
    ensures Upsert(Upsert(s, first), second) == Upsert(s, second)
  {
    if s != [] && Key(s[0]) != Key(first) {
      UpsertOverwrite(s[1..], first, second);
      assert Upsert(s, first)[1..] == Upsert(s[1..], first);
    } else if s != [] {
      assert Upsert(s, first)[1..] == s[1..];
    }
  }

  /** The rows of a batch upserted one after another, in batch order. */
  function UpsertAll(s: seq<SheetRow>, batch: seq<SheetRow>): (r: seq<SheetRow>)
    ensures UniqueKeys(s) ==> UniqueKeys(r)
  {
    if batch == [] then s else Upsert(UpsertAll(s, batch[..|batch| - 1]), batch[|batch| - 1])
  }

  /** The last row of `batch` with key `k`. */
  function LastWithKey(batch: seq<SheetRow>, k: (int, int)): (r: Option<SheetRow>)
    ensures r.Some? ==> Key(r.value) == k && r.value in batch
    ensures r.None? <==> forall i :: 0 <= i < |batch| ==> Key(batch[i]) != k
  {
    if batch == [] then None
    else if Key(batch[|batch| - 1]) == k then Some(batch[|batch| - 1])
    else
      var r := LastWithKey(batch[..|batch| - 1], k);
      assert forall i :: 0 <= i < |batch| - 1 ==> batch[i] == batch[..|batch| - 1][i];
      r
  }

  /**
   * After a batch upsert every key of the batch holds the batch's LAST row
   * for that key, and every other key holds what it held before.
   */
  lemma {:induction false} UpsertAllLookup(s: seq<SheetRow>, batch: seq<SheetRow>, k: (int, int))
    ensures Lookup(UpsertAll(s, batch), k) ==
            if LastWithKey(batch, k).Some? then LastWithKey(batch, k) else Lookup(s, k)
  {
    if batch != [] {
      UpsertAllLookup(s, batch[..|batch| - 1], k);
    }
  }

  /** With the unique index, each key of a batch ends up stored exactly once. */
  lemma UpsertAllExactlyOnce(s: seq<SheetRow>, batch: seq<SheetRow>, i: nat)
    requires UniqueKeys(s)
    requires i < |batch|
    ensures CountKey(UpsertAll(s, batch), Key(batch[i])) == 1
    ensures Lookup(UpsertAll(s, batch), Key(batch[i])) == LastWithKey(batch, Key(batch[i]))
  {
    UpsertAllLookup(s, batch, Key(batch[i]));
    CountUnique(UpsertAll(s, batch), Key(batch[i]));
  }

  /** `INSERT OR IGNORE` of one row under the unique index. */
  function InsertSheetOrIgnore(s: seq<SheetRow>, row: SheetRow): (r: seq<SheetRow>)
    ensures UniqueKeys(s) ==> UniqueKeys(r)
    ensures Lookup(r, Key(row)).Some?
    ensures |s| <= |r| && r[..|s|] == s
    ensures Lookup(s, Key(row)).Some? ==> r == s
    ensures Lookup(s, Key(row)).None? ==> r == s + [row]
  {
    if Lookup(s, Key(row)).Some? then s
    else
      var r := s + [row];
      assert r[|s|] == row;
      r
  }

  /** A key absent before now holds `row`; every other key holds what it held. */
  lemma InsertSheetOrIgnoreLookup(s: seq<SheetRow>, row: SheetRow, k: (int, int))
    ensures Lookup(InsertSheetOrIgnore(s, row), k) ==
            if k == Key(row) && Lookup(s, k).None? then Some(row) else Lookup(s, k)
  {
    if Lookup(s, Key(row)).None? {
      LookupSnoc(s, row, k);
    }
  }

  /** `executemany` of `INSERT OR IGNORE`, in list order. */
  function InsertSheetsOrIgnore(s: seq<SheetRow>, rows: seq<SheetRow>): (r: seq<SheetRow>)
    ensures UniqueKeys(s) ==> UniqueKeys(r)
    ensures |s| <= |r| && r[..|s|] == s
  {
    if rows == [] then s
    else
      var mid := InsertSheetsOrIgnore(s, rows[..|rows| - 1]);
      var r := InsertSheetOrIgnore(mid, rows[|rows| - 1]);
      assert r[..|s|] == r[..|mid|][..|s|];
      r
  }

  /**
   * After an `INSERT OR IGNORE` batch a key holds what it held before, or,
   * when it was absent, the batch's FIRST row with that key.
   */
  lemma {:induction false} InsertSheetsLookup(s: seq<SheetRow>, rows: seq<SheetRow>, k: (int, int))
    ensures Lookup(InsertSheetsOrIgnore(s, rows), k) ==
            if Lookup(s, k).Some? then Lookup(s, k) else Lookup(rows, k)
  {
    if rows != [] {
      var init := rows[..|rows| - 1];
      var last := rows[|rows| - 1];
      var mid := InsertSheetsOrIgnore(s, init);
      InsertSheetsLookup(s, init, k);
      InsertSheetOrIgnoreLookup(mid, last, k);
      LookupLast(rows, k);
    }
  }

  /** `Lookup` of a non-empty sequence, seen from its last row. */
  lemma LookupLast(s: seq<SheetRow>, k: (int, int))
    requires s != []
    ensures Lookup(s, k) ==
            if Lookup(s[..|s| - 1], k).Some? then Lookup(s[..|s| - 1], k)
            else if Key(s[|s| - 1]) == k then Some(s[|s| - 1]) else None
  {
    assert s == s[..|s| - 1] + [s[|s| - 1]];
    LookupSnoc(s[..|s| - 1], s[|s| - 1], k);
  }

  /** A key once stored stays stored when more rows are appended. */
  lemma {:induction false} LookupPrefix(s: seq<SheetRow>, r: seq<SheetRow>, k: (int, int))
    requires |s| <= |r| && r[..|s|] == s
    requires Lookup(s, k).Some?
    ensures Lookup(r, k).Some?
  {
    var i :| 0 <= i < |s| && Key(s[i]) == k;
    assert r[i] == s[i];
  }

  lemma {:induction false} InsertSheetsPresent(s: seq<SheetRow>, rows: seq<SheetRow>, i: nat)
    requires i < |rows|
    ensures Lookup(InsertSheetsOrIgnore(s, rows), Key(rows[i])).Some?
  {
    var mid := InsertSheetsOrIgnore(s, rows[..|rows| - 1]);
    if i < |rows| - 1 {
      InsertSheetsPresent(s, rows[..|rows| - 1], i);
      LookupPrefix(mid, InsertSheetsOrIgnore(s, rows), Key(rows[i]));
    }
  }

  lemma {:induction false} InsertSheetsAllPresent(s: seq<SheetRow>, rows: seq<SheetRow>)
    requires forall i :: 0 <= i < |rows| ==> Lookup(s, Key(rows[i])).Some?
    ensures InsertSheetsOrIgnore(s, rows) == s
  {
    if rows != [] {
      InsertSheetsAllPresent(s, rows[..|rows| - 1]);
      assert Lookup(s, Key(rows[|rows| - 1])).Some?;
    }
  }

  /** Running the same `INSERT OR IGNORE` batch twice stores what running it once does. */
  lemma InsertSheetsIdempotent(s: seq<SheetRow>, rows: seq<SheetRow>)
    ensures InsertSheetsOrIgnore(InsertSheetsOrIgnore(s, rows), rows) == InsertSheetsOrIgnore(s, rows)
  {
    forall i | 0 <= i < |rows| ensures Lookup(InsertSheetsOrIgnore(s, rows), Key(rows[i])).Some? {
      InsertSheetsPresent(s, rows, i);
    }
    InsertSheetsAllPresent(InsertSheetsOrIgnore(s, rows), rows);
  }

  // =====================================================================
  // The database

  datatype Tables = Tables(companies: CompanyTable, users: UserTable, sheets: seq<SheetRow>)

  ghost predicate TablesValid(t: Tables) {
    CompaniesValid(t.companies) && UsersValid(t.users, CaseInsensitive) && UniqueKeys(t.sheets)
  }

  /** The three tables, updated in place by the program's write operations. */
  class Database {
    var companies: CompanyTable
    var users: UserTable
    var sheets: seq<SheetRow>

    ghost predicate Valid()
      reads this
    {
      TablesValid(State())
    }

    function State(): Tables
      reads this
    {
      Tables(companies, users, sheets)
    }

    /** `create_tables()` on a fresh file, plus the unique (company_id, year) index. */
    constructor ()
      ensures Valid()
      ensures companies.rows == [] && users.rows == [] && sheets == []
    {
      companies := CompanyTable([], 1);
      users := UserTable([], 1);
      sheets := [];
    }
  }
}

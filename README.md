# Balance-GPT data path in Dafny

Balance-GPT is a small multi-tenant balance-sheet service. It has three
SQLite tables: `companies`, `users` and `balance_sheets`. Users log in, see
the balance sheets of the companies their role allows, and upload PDF
balance sheets. The uploaded tables are turned into `(company_id, year,
revenue, assets, liabilities, profit)` records and upserted by
`(company_id, year)`.

This project models that data path and proves its properties:

- **extract_pdf.py**:
  - `clean_number`, the cell-to-number normaliser;
  - the table shape filter of `extract_tables`;
  - the header check and row parsing of `extract_and_store`;
  - the batch upsert `add_balance_sheet_data_bulk`;
  - the id that `choose_company` accepts.
- **db.py**:
  - `list_companies` and `get_balance_sheet`, the case-insensitive role checks;
  - `add_balance_sheet_data`;
  - the `INSERT OR IGNORE` seeding of `seed_data`.
- **app.py**:
  - `check_user`;
  - its own `list_companies` and `get_balance_sheet`, which compare the role exactly and take year bounds;
  - sign-up;
  - the question guard and data context of `/ask`.

The modules follow the program:

| file | module | what it holds |
|---|---|---|
| `wrappers.dfy` | `Wrappers` | `Option` (Python's `None`) and the truthiness of an optional integer. |
| `text.dfy` | `Text` | The Python string operations used: `strip`, `lower`, character filtering with `re.sub`, `in` on strings, `int` and `float` on the texts that survive the filtering, `"\n".join`, and SQLite's text ordering. |
| `ordering.dfy` | `Ordering` | `ORDER BY`: a stable insertion sort, proved to sort and to permute. |
| `store.dfy` | `Store` | The three tables and the effect of each SQL statement as a pure function: upsert, `INSERT OR IGNORE`, and `INSERT` with its integrity errors. It also holds `class Database`, the tables the write operations update in place. |
| `query.dfy` | `Query` | The read side: selected columns, `WHERE` clauses, company listings and `ORDER BY year`. |
| `extract_pdf.dfy` | `ExtractPdf` | extract_pdf.py. `PageTables`, `ExtractTables`, `CollectRows`, `ExtractRecords` and `AddBalanceSheetDataBulk` are loops over the input, each proved equal to a recursive specification function. `ExtractAndStore` has no loop of its own: its ensures tie the new balance sheets to `UpsertAll` of the old ones and the run's records (`TablesRecords`). Lemmas about those functions state the rules. |
| `db.dfy` | `Db` | db.py. The reads are functions. `AddBalanceSheetData` and `SeedData` are methods on the `Database`. |
| `app.dfy` | `App` | app.py. The reads are functions. `SignupRequestOn` is a method on the `Database`. |

`Database.Valid()` states the table constraints as invariants:

- company ids and names are unique;
- user ids and usernames are unique;
- every user role passes the case-insensitive role check: `analyst`, `ceo` or `groupadmin`, in any case. This is wider than the schema's CHECK (db.py:75), which admits only `'analyst'`, `'ceo'` and `'GroupAdmin'` exactly. Inserts under the CHECK as written keep the wider invariant (`Store.AsWrittenAdmitsLess`);
- `(company_id, year)` is unique among balance sheets.

Every write method keeps these invariants.

## Behaviour worth noting

- **Header mapping.** The required-field check tests substrings (extract_pdf.py:112).
  - A table is kept when each field name is contained in some header.
  - Columns are then looked up by the exact header text, and the last duplicate wins (extract_pdf.py:108).
  - A field with no header exactly equal to its name is read from a fixed index 0..4 (extract_pdf.py:120-124).
  - So a "Total Revenue" header passes the check, yet revenue is read from column 1. See `ExtractPdf.SubstringHeaderFallsBack`.
- **A requested company outside the caller's scope.**
  - db.py returns `[]` (db.py:30-33).
  - app.py ignores the requested company for anyone but a group administrator and returns the caller's own rows (app.py:54-56). See `App.ForeignRequestSubstituted`.
- **Ordering.** app.py orders by year only, even when the rows span several companies (app.py:68). db.py orders its joined rows by company name and then year (db.py:49).
- **Roles.**
  - db.py and extract_pdf.py lower-case the role before comparing it with "groupadmin". app.py compares it exactly.
  - The schema's CHECK admits the administrator role only as `'GroupAdmin'` (db.py:75). This is the second finding below.
- **The unique `(company_id, year)` index.**
  - db.py's schema does not declare it (db.py:83-93). Only `add_balance_sheet_data_bulk` creates it (extract_pdf.py:15-18).
  - The model assumes the index is present. The first finding shows what happens without it.

## Model

| member | source | states |
|---|---|---|
| ExtractPdf.ChoicesAccepted | extract_pdf.py:47-58 | Every company offered for upload is accepted. A user who is not a group administrator is accepted exactly for their own `company_id`. |
| ExtractPdf.CleanNumber | extract_pdf.py:65-76 | `None` or `""` gives `None`. A result is only ever produced from a cell that holds a digit, so "N/A" gives `None`. |
| ExtractPdf.AccountingSign | extract_pdf.py:71-72 | A text wrapped in parentheses becomes `-` followed by what is inside them. Any other text is unchanged. |
| ExtractPdf.CleanIgnoresLayout | extract_pdf.py:69-70 | Stripping and dropping commas change nothing the character filter keeps. |
| ExtractPdf.CleanNumberByKeptChars | extract_pdf.py:69-74 | The value depends only on the digits, parentheses, `.` and `-` of the cell. |
| ExtractPdf.CleanParenthesised | extract_pdf.py:71-72 | A cleaned text `(x)` is parsed as `-x`. |
| ExtractPdf.CleanNumberAccountingNegative | extract_pdf.py:71-74 | A numeral in parentheses reads as its negation, so "(1,234.50)" gives -1234.5. |
| ExtractPdf.CleanNumberMinusInside | extract_pdf.py:71-76 | "(-5)" becomes "--5", which does not parse, so the result is `None`. |
| ExtractPdf.CleanNumberMinusOutside | extract_pdf.py:71-76 | "-(5)" is not rewritten and does not parse, so the result is `None`. |
| ExtractPdf.CleanNumberPlain | extract_pdf.py:69-74 | Without parentheses, a cell reads as the decimal numeral of its kept characters. |
| ExtractPdf.CleanNumberOfNatural | extract_pdf.py:69-74 | A cell whose number characters are the digits of n reads as n, so "1,000" gives 1000. |
| ExtractPdf.YearOf | extract_pdf.py:120 | A year is read exactly when the cell is present and holds a digit, and it is never negative. |
| ExtractPdf.YearOfDigits | extract_pdf.py:120 | Non-digits around the digits are ignored, so "FY 2023" reads as 2023. |
| ExtractPdf.KeepFrom | extract_pdf.py:86-89 | The tables kept from a page are never more than the page's tables, and all of them pass the shape filter. |
| ExtractPdf.KeptTables | extract_pdf.py:84-89 | Every table collected from the pages passes the shape filter. |
| ExtractPdf.KeepFromMembers | extract_pdf.py:86-89 | A table is kept from a page exactly when it is on the page and passes the filter. |
| ExtractPdf.KeptTablesMembers | extract_pdf.py:84-89 | A table is kept exactly when some page holds it and it passes the filter. |
| ExtractPdf.ShortTableDropped | extract_pdf.py:88 | A table of two rows or fewer is never kept. |
| ExtractPdf.PageTables | extract_pdf.py:86-89 | The inner loop appends exactly the page's kept tables, in order. |
| ExtractPdf.HeaderName | extract_pdf.py:107 | A header cell gives at most one header name; an empty or missing cell gives none. |
| ExtractPdf.Headers | extract_pdf.py:107 | There are never more header names than header cells. |
| ExtractPdf.ExtractTables | extract_pdf.py:79-92 | The loop returns the kept tables of every page, in page order. |
| ExtractPdf.HeaderShift | extract_pdf.py:107 | Dropping empty header cells shifts later headers left by the number of empty cells before them. |
| ExtractPdf.ColMap | extract_pdf.py:108 | A name is a key exactly when it is a header. Its index points at that header, and it is the last such index. |
| ExtractPdf.ColumnChoice | extract_pdf.py:120-124 | A field is read at its exact header's index, or at its fixed fallback index when no header is exactly its name. |
| ExtractPdf.RequiredMentioned | extract_pdf.py:111-112 | Headers that are exactly the required names, except one header that only contains its name, pass the required-field check. |
| ExtractPdf.SubstringHeaderFallsBack | extract_pdf.py:111-121 | A "total revenue" header passes the required-field check, yet revenue is read from column 1. |
| ExtractPdf.RowRecord | extract_pdf.py:119-130 | A row gives a record exactly when every column index is in range, the year cell holds a digit and all four amounts clean to numbers. The record carries the upload's company, that year and those amounts. |
| ExtractPdf.RowParser | extract_pdf.py:117-130 | A row of fewer than five cells gives no record. A longer row gives what `RowRecord` says. |
| ExtractPdf.RowsRecords | extract_pdf.py:115-132 | The records collected are never more than the rows. |
| ExtractPdf.RowsRecordsParsed | extract_pdf.py:115-130 | Every collected record is the parse of some row of at least five cells. |
| ExtractPdf.RejectedRowDropped | extract_pdf.py:117-132 | A rejected or short row is skipped on its own; the records of the other rows are unchanged. |
| ExtractPdf.RowsRecordsCompany | extract_pdf.py:127-128 | Every record carries the chosen company id. |
| ExtractPdf.TableRecords | extract_pdf.py:107-132 | A table without all five required fields yields no records. All records carry the chosen company, and there are fewer records than table rows. |
| ExtractPdf.TablesRecords | extract_pdf.py:106-132 | All records of a run carry the chosen company id. |
| ExtractPdf.CollectRows | extract_pdf.py:115-132 | The row loop collects exactly the records of the data rows, in order. |
| ExtractPdf.TableStep | extract_pdf.py:107-132 | One pass of the table loop yields exactly that table's records. |
| ExtractPdf.ExtractRecords | extract_pdf.py:103-132 | The loop collects exactly the records of all kept tables, and `total_rows` equals their number. |
| ExtractPdf.AddBalanceSheetDataBulk | extract_pdf.py:8-31 | The batch is upserted in order and the table invariants are kept. Companies and users are unchanged. |
| ExtractPdf.ExtractAndStore | extract_pdf.py:95-138 | No kept table means no change. Otherwise every record of the run is upserted, and the reply reports their number or that none was valid. The rows of other companies are unchanged. |
| Store.Database.constructor | db.py:57-93 | Fresh tables are empty and satisfy every constraint. |
| Store.CompanyIdByName | db.py:149-150 | The id of a company with that name, or `None` exactly when there is none. |
| Store.CompanyNameById | db.py:48 | The name of the company with that id, or `None` exactly when there is none. |
| Store.InsertCompanyOrIgnore | db.py:109-111 | Afterwards the name is present. A present name leaves the table unchanged. A new name is appended as the row `(next id, name, parent_group)`, and the next id advances. The constraints are kept. |
| Store.InsertCompaniesOrIgnore | db.py:109-111 | A batch keeps the constraints and leaves existing rows unchanged. |
| Store.InsertCompaniesPresent | db.py:109-111 | After the batch, every seeded name is present. |
| Store.InsertCompaniesAllPresent | db.py:109-111 | When every name is already present, the batch changes nothing. |
| Store.VisibleCompanies | db.py:14-18 | A group administrator sees every company. Anyone else sees exactly the company with their own id. |
| Store.VisibleAtMostOne | db.py:18 | Anyone but a group administrator sees at most one company. |
| Store.AsWrittenAdmitsLess | db.py:75 | Every role the schema admits is admitted case-insensitively too. |
| Store.InsertUser | app.py:107-110 | The insert succeeds exactly when the username and password are present, the role passes the CHECK and the username is new. The new user row is appended with the next id, and the constraints are kept. |
| Store.InsertUserOrIgnore | db.py:123-126 | A role the CHECK refuses, or a taken username, leaves the table unchanged. Otherwise the user is appended with the next id and the seed's username, password, role and company. The constraints are kept. |
| Store.InsertUserOrIgnoreAdded | db.py:123-126 | A row the insert adds is the one new user, with the next id and the seed's fields. |
| Store.Lookup | extract_pdf.py:23 | The row stored under a key, or `None` exactly when no row has that key. |
| Store.CountUnique | extract_pdf.py:15-18 | Under the unique index a key is stored once or not at all. |
| Store.Upsert | extract_pdf.py:20-28 | The key now holds the new row, every other key holds what it held, and uniqueness is kept. |
| Store.UpsertIdempotent | db.py:159-165 | Upserting the same row twice stores what upserting it once does. |
| Store.UpsertOverwrite | extract_pdf.py:23-27 | A second upsert of the same key replaces the first entirely. |
| Store.UpsertAll | extract_pdf.py:20-28 | A batch upsert keeps the unique index. |
| Store.UpsertAllLookup | extract_pdf.py:20-28 | After a batch, a key of the batch holds its last row in the batch, and every other key is unchanged. |
| Store.UpsertAllExactlyOnce | extract_pdf.py:15-28 | Each key of the batch is then stored exactly once, holding the batch's last row for it. |
| Store.InsertSheetOrIgnore | db.py:137-140 | A present key leaves the table unchanged. An absent key appends exactly the given row. The key is present afterwards, and uniqueness is kept. |
| Store.InsertSheetOrIgnoreLookup | db.py:137-140 | A key absent before now holds the new row. Every other key holds what it held. |
| Store.InsertSheetsOrIgnore | db.py:137-140 | A batch keeps uniqueness and leaves existing rows unchanged. |
| Store.InsertSheetsLookup | db.py:137-140 | After the batch, a key holds what it held before. When it was absent, it holds the batch's first row with that key. |
| Store.InsertSheetsPresent | db.py:137-140 | After the batch, every seeded key is present. |
| Store.InsertSheetsIdempotent | db.py:137-140 | Running the same batch twice stores what running it once does. |
| Store.CountKeyConcat | db.py:137-140 | Appending rows adds their count for every key. |
| Query.ListedVisible | db.py:30 | An id is in the listing exactly when that company exists and is in the caller's scope. |
| Query.ListedRefs | db.py:14-22 | An `(id, name)` pair is listed exactly when a stored company in the caller's scope has that id and that name. |
| Query.ListedName | db.py:14-22 | With unique company ids, a listed pair's name is the name stored under its id. |
| Query.Select | app.py:51-59 | A selection never holds more tuples than there are stored rows. |
| Query.SelectMembers | app.py:51-59 | A selected tuple is exactly the figures of a stored row that the `WHERE` clause admits. |
| Query.SelectSame | app.py:51-59 | Clauses that agree on every stored row select the same tuples. |
| Query.OrderByYear | app.py:68 | The result is a permutation of the selected rows, ascending by year. |
| Ordering.InsertSorted | db.py:38 | Inserting into a sorted sequence keeps it sorted. |
| Ordering.SortSorted | db.py:38 | The sort orders its input by any total preorder. |
| Ordering.Sort | db.py:38 | The sort returns a permutation of its input. |
| Text.StrLeTotal | db.py:49 | Any two texts are ordered one way or the other. |
| Text.StrLeAntisymmetric | db.py:49 | Texts ordered both ways are equal. |
| Text.StrLeTransitive | db.py:49 | The text ordering is transitive. |
| Text.ParseDecimal | extract_pdf.py:73-76 | `float` of the cleaned text: defined only for a text holding a digit and no parenthesis. |
| Text.ParseDecimalNegative | extract_pdf.py:72-74 | A minus sign before a numeral negates its value. |
| Text.SplitJoin | app.py:150 | Lines joined with "\n" and split again give back the lines, when no line holds "\n". |
| Db.ListCompanies | db.py:10-22 | An id is listed exactly when the company exists and the caller, compared case-insensitively, is a group administrator or has that id. An `(id, name)` pair is listed exactly when a company in that scope is stored with both. A group administrator gets every company. |
| Db.ListCompaniesNames | db.py:14-22 | Company ids are unique, so every listed pair carries the name stored under its id. |
| Db.ListCompaniesNonAdmin | db.py:18 | Anyone but a group administrator is listed at most one company. |
| Db.NameYearOrder | db.py:49 | Ordering by name and then year is a total preorder. |
| Db.OrderByNameYear | db.py:49 | The result is a permutation ordered by name and then year. |
| Db.GetBalanceSheet | db.py:25-54 | A truthy company id outside the caller's listing gives `[]`. A group administrator naming a company gets its rows sorted by year. Anyone else gets their own company's rows. A group administrator naming none gets every joined row with its company name, ordered by name and then year. |
| Db.ForeignCompanyDenied | db.py:31-33 | Anyone but a group administrator who asks for another company gets `[]`. |
| Db.NonAdminOwnRows | db.py:40-44 | Anyone but a group administrator gets only rows of their own company. When they name no company or their own, they get exactly those rows. |
| Db.AdminCompanyRows | db.py:35-39 | A group administrator naming an existing company gets exactly that company's rows. |
| Db.AdminSeesAll | db.py:45-50 | A group administrator naming no company gets as many rows as there are balance sheets whose company exists. A row is returned exactly when some balance sheet's company is stored under that name and the figures are the sheet's. Sheets whose company is missing drop out. |
| Db.CountWithCompany | db.py:48 | The number of balance sheets whose company exists is at most the number of sheets, and equals it when every company exists. |
| Db.JoinedAll | db.py:48 | The join has exactly one row per balance sheet whose company exists. |
| Db.JoinedMembers | db.py:47-49 | A joined row is exactly the stored name of some balance sheet's company paired with that sheet's figures. |
| Db.Joined | db.py:45-50 | The join yields at most one row per balance sheet. |
| Db.AddBalanceSheet | db.py:145-165 | An unknown company name changes nothing. Otherwise the company's `(id, year)` key holds the four new values, every other key is unchanged, and uniqueness is kept. |
| Db.AddBalanceSheetOnce | db.py:159-165 | Afterwards exactly one row exists for `(company_id, year)`. |
| Db.AddBalanceSheetIdempotent | db.py:159-165 | Repeating the call changes nothing. |
| Db.AddBalanceSheetData | db.py:145-169 | The method leaves the balance sheets as `AddBalanceSheet` says. Companies and users are unchanged, and the constraints are kept. |
| Db.SeededCompaniesPresent | db.py:109-114 | After the company batch, every name `company_map` is read with exists. |
| Db.InsertUserSeeds | db.py:116-126 | Seeding users keeps the constraints and leaves existing users unchanged. |
| Db.UserSeedsTaken | db.py:116-126 | After seeding, every seeded username exists. |
| Db.UserSeedsAllTaken | db.py:123-126 | When every seeded username exists, seeding users changes nothing. |
| Db.UserSeedsStored | db.py:116-126 | A seeded user whose username was free is stored with the seed's password, role and company. |
| Db.SheetSeedRows | db.py:129-140 | There is one row per seeded balance sheet, carrying its year and the id of its company. |
| Db.SheetSeedKeysUnique | db.py:129-140 | With unique company ids, no two seeded balance sheets share a `(company_id, year)` key. |
| Db.Seed | db.py:99-143 | Seeding keeps the constraints and leaves existing companies, users and balance sheets unchanged. Afterwards every seeded company and username exists. A seeded user whose username was free is stored with the seed's password, role and company. Every `(company, year)` key holds what it held before, or, when it was free, the seeded row for it. |
| Db.SeedStoresFigures | db.py:129-140 | A seeded balance sheet whose key was free is stored with the seed's revenue, assets, liabilities and profit. |
| Db.SeedIdempotent | db.py:99-143 | Seeding a second time changes nothing. |
| Db.SeedData | db.py:99-143 | The method leaves the tables as `Seed` says and keeps the constraints. |
| Db.InsertSheetsNoIndex | db.py:137-140 | Without a unique key every row is added, so each key's count grows by its count in the batch. |
| Db.SeedTwiceNoIndexDuplicates | db.py:137-140 | Without the index, seeding twice stores each seeded balance sheet at least twice. |
| Db.SeedTwiceStoresOnce | db.py:137-140 | With the index, each seeded balance sheet is stored exactly once after two seedings. |
| App.FindUser | app.py:26-30 | The first row with the username and password: no earlier row has both. `None` exactly when no row has both. |
| App.CheckUser | app.py:23-35 | A session is returned exactly when a stored user matches both username and password. It carries that user's id and company, and the role lower-cased. |
| App.CheckUserUnique | app.py:26-34 | With unique usernames, the session is the one of the user with that name. |
| App.ListCompanies | app.py:37-46 | An id is listed exactly when the company exists and the role is exactly "groupadmin" or the id is the user's. An `(id, name)` pair is listed exactly when a company in that scope is stored with both. A group administrator gets every company. |
| App.ListCompaniesNames | app.py:40-46 | Company ids are unique, so every listed pair carries the name stored under its id. |
| App.ListCompaniesAgree | app.py:40 | For a session with a lower-case role, app.py and db.py list the same companies. |
| App.GetBalanceSheet | app.py:48-72 | The result is sorted ascending by year and is a permutation of the rows the `WHERE` clause selects. |
| App.ScopeOf | app.py:54-59 | The query covers all companies exactly when a group administrator names no truthy company. Otherwise it covers the requested company for a group administrator, and the user's own company for anyone else. |
| App.Where | app.py:51-66 | A row passes only when it is in scope and within the truthy year bounds. With no scope and no bounds, every row passes. |
| App.GetBalanceSheetMembers | app.py:54-66 | A tuple is returned exactly when a stored row has it and satisfies three conditions. It is in scope: the user's own company for anyone but a group administrator, or the requested company when a group administrator names one. Its year is at or after `year_from` when that bound is truthy. Its year is at or before `year_to` when that bound is truthy. |
| App.NonAdminIgnoresRequestedCompany | app.py:54-56 | For anyone but a group administrator the requested company makes no difference. |
| App.ForeignRequestSubstituted | app.py:54-59 | On a request for another company, db.py returns `[]` while app.py returns the caller's own rows. |
| App.OwnRowsAgree | app.py:54-56 | Without a requested company, app.py and db.py return the same rows to anyone but a group administrator. |
| App.Signup | app.py:93-115 | A non-administrator without a company is refused with "Non-admin users must have a company_id" and nothing is written. Otherwise the insert succeeds exactly when `InsertUser` admits it, and the new user is appended with the next id, and the next id moves on by one. Any integrity error is reported as "Username already exists". |
| App.SignupThenLogin | app.py:23-35 | A user who signed up can log in, and gets the stored role. |
| App.GroupAdminSignupRefused | app.py:98-115 | Under the schema as written, a group-administrator sign-up always fails with "Username already exists". |
| App.GroupAdminSignupAccepted | app.py:98-113 | With the role checked case-insensitively, a new group administrator is accepted. |
| App.SignupRequestOn | app.py:93-115 | The method updates the users table and replies as `Signup` says. Companies and balance sheets are unchanged, and the constraints are kept. |
| App.Ask | app.py:135-152 | A missing or empty question gets "Question is required". Otherwise the prompt holds the context of the caller's rows and the question. |
| App.Prompt | app.py:75 | The prompt is the fixed introduction, the context, the question lead, the question and the closing line, in that order. |
| App.ContextLines | app.py:150 | The context has one line per returned row, in query order. |

## Left out

- PDF table detection (extract_pdf.py:83-85) is replaced by its output. A document is a sequence of pages, a page a sequence of tables, and a table rows of `Option<string>` cells.
- ExtractTables: the `try` in `extract_tables` (extract_pdf.py:82-91) covers the whole page loop. A library failure on a later page therefore returns the tables collected so far. The model has no library failures, so every page is read.
- The console prompt and retry loop of `choose_company` (extract_pdf.py:50-62) and `main_menu` are left out. Only the rule for which id is accepted is modelled; `ExtractAndStore` takes that id as a parameter.
- `print` output, connection handling, `commit` and `close` are left out.
- Each SQL statement is a pure function on the tables, applied atomically.
- The whole extraction run is modelled without concurrent writers.
- The unique index on `(company_id, year)` is assumed present for every operation. Without it, SQLite rejects the `ON CONFLICT` clause of `add_balance_sheet_data` with an error; that failure is not modelled.
- Foreign keys are not enforced, which is SQLite's default.
- Python's `float` is modelled as an exact `real` over the grammar `-?(D+(.D*)?|.D+)`. Only digits, `.`, `-` and parentheses reach it. IEEE rounding and overflow to infinity are left out.
- Digits, white space and case are ASCII only. Python's `\d`, `str.strip` and `str.lower` also cover other Unicode characters.
- Request fields are modelled as `Option<int>`, and truthy means present and non-zero. app.py's query-string arguments are really strings, where "0" is truthy. SQLite's type affinity is not modelled.
- A JSON `"role": null` in sign-up makes `None.lower()` raise, which is not modelled: the role is a string or absent.
- `ORDER BY` ties: the model sorts stably, but SQL promises only that the result is sorted. The contracts state only "sorted" and "a permutation of the selected rows".
- db.py's query for anyone but a group administrator has no `ORDER BY`. The model returns table order, which SQL does not promise.
- `str(row)` in `/ask` is a parameter `render` of `App.Ask`, because Python's float formatting is not modelled.
- `ask_deepseek` (app.py:74-89) and the language-model reply are left out. `App.Ask` ends with the prompt that would be sent.
- `seed_data`'s `company_map` is a dict built from all companies, where the last name wins. The model uses the first company with the name; names are unique, so the two agree.
- The Flask routes themselves are left out: `/login`, `/companies`, `/balance_sheet_filtered`, `/upload-pdf` and `/plot`.
- The JSON `Authorization` token and file saving are left out.
- chat.py, plotting_helper.py, spare.py and static/app.js are left out; they are not part of this model.
- `db.create_tables` is modelled only as the empty, constraint-satisfying tables of `Store.Database.constructor`.

## Findings

| source | as written | input that shows it | evidently intended | confidence | as-written member | corrected member |
|---|---|---|---|---|---|---|
| db.py:137-140 | `INSERT OR IGNORE` into `balance_sheets`, whose schema (db.py:83-93) has no unique key on `(company_id, year)`, so nothing is ever ignored | Run `db.py` twice on a fresh database, before any PDF upload has created `idx_company_year`. Every seeded balance sheet is then stored twice. | Seeding is idempotent, and each `(company, year)` is stored once | not executed | Db.SeedTwiceNoIndexDuplicates | Db.SeedTwiceStoresOnce |
| app.py:98-115 | `signup` lower-cases the role, but the schema's CHECK admits only `'GroupAdmin'` (db.py:75), so the insert fails and the error is reported as a taken username | `{"username": "new", "password": "p", "role": "GroupAdmin"}` gets "Username already exists" | A group administrator can sign up | not executed | App.GroupAdminSignupRefused | App.GroupAdminSignupAccepted |

/**
 * app.py: the Flask back end's login check, its own copies of the company
 * listing and the balance-sheet query (with year bounds), sign-up, and the
 * question guard and data context of `/ask`.
 *
 * The `user` a request carries is the session `check_user` produced, whose
 * role is lower-cased; app.py therefore compares it with "groupadmin"
 * exactly, where db.py compares case-insensitively.
 */
module App {
  import opened Wrappers
  import opened Text
  import opened Ordering
  import opened Store
  import opened Query
  import Db

  // =====================================================================
  // check_user (app.py:23-35)

  /** The first user row with this username and password (`fetchone()`). */
  function FindUser(users: seq<User>, username: string, password: string): (r: Option<User>)
    ensures r.Some? <==> exists i :: 0 <= i < |users| && users[i].username == username && users[i].password == password
    ensures r.Some? ==> r.value in users && r.value.username == username && r.value.password == password
    ensures r.Some? ==> exists i :: 0 <= i < |users| && users[i] == r.value
                          && forall j :: 0 <= j < i ==> !(users[j].username == username && users[j].password == password)
  {
    if users == [] then None
    else if users[0].username == username && users[0].password == password then Some(users[0])
    else
      var r := FindUser(users[1..], username, password);
      assert forall i :: 0 <= i < |users[1..]| ==> users[1..][i] == users[i + 1];
      r
  }

  /**
   * `check_user(username, password)`: the session of the user stored with
   * both, its role lower-cased; `None` when no row matches (a NULL username
   * or password matches none).
   */
  function CheckUser(users: seq<User>, username: Option<string>, password: Option<string>): (r: Option<Session>)
    ensures r.Some? <==> username.Some? && password.Some?
                         && exists i :: 0 <= i < |users| && users[i].username == username.value && users[i].password == password.value
    ensures r.Some? ==> exists u :: u in users && u.username == username.value && u.password == password.value
                         && r.value == Session(u.id, username.value, Lower(u.role), u.companyId)
    ensures r.Some? ==> Lower(r.value.role) == r.value.role
  {
    if username.None? || password.None? then None
    else
      match FindUser(users, username.value, password.value)
      case None => None
      case Some(u) =>
        LowerIdempotent(u.role);
        Some(Session(u.id, username.value, Lower(u.role), u.companyId))
  }

  /** Usernames are unique, so the session is that of the one user with the name. */
  lemma CheckUserUnique(t: UserTable, check: RoleCheck, i: nat)
    requires UsersValid(t, check)
    requires i < |t.rows|
    ensures var u := t.rows[i];
            CheckUser(t.rows, Some(u.username), Some(u.password)) == Some(Session(u.id, u.username, Lower(u.role), u.companyId))
  {
    var u := t.rows[i];
    var found := FindUser(t.rows, u.username, u.password);
    assert found.Some?;
    var j :| 0 <= j < |t.rows| && t.rows[j] == found.value;
    assert j == i;
  }

  // =====================================================================
  // list_companies (app.py:37-46)

  /** app.py's administrator test: the session role is exactly "groupadmin". */
  predicate IsAdmin(user: Session) {
    user.role == "groupadmin"
  }

  function ListCompanies(companies: seq<Company>, user: Session): (r: seq<CompanyRef>)
    ensures IsAdmin(user) ==> |r| == |companies|
    ensures forall id :: Listed(r, id) <==> HasCompanyId(companies, id) && (IsAdmin(user) || Some(id) == user.companyId)
    ensures forall c :: c in r <==> exists co :: co in companies && co.id == c.id && co.name == c.name && (IsAdmin(user) || Some(co.id) == user.companyId)
  {
    forall id ensures Listed(Refs(VisibleCompanies(companies, IsAdmin(user), user.companyId)), id)
                      <==> HasCompanyId(companies, id) && (IsAdmin(user) || Some(id) == user.companyId) {
      ListedVisible(companies, IsAdmin(user), user.companyId, id);
    }
    forall c ensures c in Refs(VisibleCompanies(companies, IsAdmin(user), user.companyId))
                     <==> exists co :: co in companies && co.id == c.id && co.name == c.name && (IsAdmin(user) || Some(co.id) == user.companyId) {
      ListedRefs(companies, IsAdmin(user), user.companyId, c);
    }
    Refs(VisibleCompanies(companies, IsAdmin(user), user.companyId))
  }

  /** Company ids are unique, so every listed pair carries the name stored under its id. */
  lemma ListCompaniesNames(companies: seq<Company>, user: Session, c: CompanyRef)
    requires forall i, j :: 0 <= i < j < |companies| ==> companies[i].id != companies[j].id
    requires c in ListCompanies(companies, user)
    ensures CompanyNameById(companies, c.id) == Some(c.name)
  {
    ListedName(companies, IsAdmin(user), user.companyId, c);
  }

  /** For a session `check_user` produced, app.py and db.py list the same companies. */
  lemma ListCompaniesAgree(companies: seq<Company>, user: Session)
    requires Lower(user.role) == user.role
    ensures ListCompanies(companies, user) == Db.ListCompanies(companies, user)
  {
    assert IsAdmin(user) == IsGroupAdmin(user);
  }

  // =====================================================================
  // get_balance_sheet (app.py:48-72)

  /** Which company's rows the query keeps: all of them, or those of one company id (none for NULL). */
  datatype Scope = AllCompanies | OnlyCompany(id: Option<int>)

  /** The company condition app.py adds: the user's own company for anyone but a group administrator. */
  function ScopeOf(user: Session, companyId: Option<int>): (scope: Scope)
    ensures scope.AllCompanies? <==> IsAdmin(user) && !Truthy(companyId)
    ensures scope.OnlyCompany? ==> scope.id == if IsAdmin(user) then companyId else user.companyId
  {
    if !IsAdmin(user) then OnlyCompany(user.companyId)
    else if Truthy(companyId) then OnlyCompany(companyId)
    else AllCompanies
  }

  /** `WHERE 1=1 [AND company_id=?] [AND year >= ?] [AND year <= ?]` */
  function Where(scope: Scope, yearFrom: Option<int>, yearTo: Option<int>): (where: SheetRow -> bool)
    ensures forall row: SheetRow :: where(row) && scope.OnlyCompany? ==> Some(row.companyId) == scope.id
    ensures forall row: SheetRow :: where(row) && Truthy(yearFrom) ==> yearFrom.value <= row.year
    ensures forall row: SheetRow :: where(row) && Truthy(yearTo) ==> row.year <= yearTo.value
    ensures scope.AllCompanies? && !Truthy(yearFrom) && !Truthy(yearTo) ==> forall row: SheetRow :: where(row)
  {
    (row: SheetRow) =>
      && (scope.OnlyCompany? ==> Some(row.companyId) == scope.id)
      && (Truthy(yearFrom) ==> row.year >= yearFrom.value)
      && (Truthy(yearTo) ==> row.year <= yearTo.value)
  }

  /** `get_balance_sheet(user, company_id, year_from, year_to)`: the selected rows, ascending by year. */
  function GetBalanceSheet(sheets: seq<SheetRow>, user: Session, companyId: Option<int>,
                           yearFrom: Option<int>, yearTo: Option<int>): (r: seq<Figures>)
    ensures SortedBy(r, YearLe)
    ensures multiset(r) == multiset(Select(sheets, Where(ScopeOf(user, companyId), yearFrom, yearTo)))
  {
    OrderByYear(Select(sheets, Where(ScopeOf(user, companyId), yearFrom, yearTo)))
  }

  /**
   * A tuple is returned exactly when some stored row has it and lies in the
   * caller's scope (their own company unless they are a group administrator,
   * the requested company if a group administrator names one) and within the
   * inclusive year bounds that are given.
   */
  lemma GetBalanceSheetMembers(sheets: seq<SheetRow>, user: Session, companyId: Option<int>,
                               yearFrom: Option<int>, yearTo: Option<int>, f: Figures)
    ensures f in GetBalanceSheet(sheets, user, companyId, yearFrom, yearTo) <==>
            exists i :: 0 <= i < |sheets| && FiguresOf(sheets[i]) == f
                        && (!IsAdmin(user) ==> Some(sheets[i].companyId) == user.companyId)
                        && (IsAdmin(user) && Truthy(companyId) ==> sheets[i].companyId == companyId.value)
                        && (Truthy(yearFrom) ==> yearFrom.value <= sheets[i].year)
                        && (Truthy(yearTo) ==> sheets[i].year <= yearTo.value)
  {
    var where := Where(ScopeOf(user, companyId), yearFrom, yearTo);
    SelectMembers(sheets, where, f);
    var r := GetBalanceSheet(sheets, user, companyId, yearFrom, yearTo);
    assert f in r <==> f in multiset(r);
  }

  /** For anyone but a group administrator the requested company makes no difference. */
  lemma NonAdminIgnoresRequestedCompany(sheets: seq<SheetRow>, user: Session, c1: Option<int>, c2: Option<int>,
                                        yearFrom: Option<int>, yearTo: Option<int>)
    requires !IsAdmin(user)
    ensures GetBalanceSheet(sheets, user, c1, yearFrom, yearTo) == GetBalanceSheet(sheets, user, c2, yearFrom, yearTo)
  {
  }

  /**
   * The two copies of `get_balance_sheet` part ways on a request for another
   * company: db.py answers `[]`, app.py silently answers with the caller's
   * own company's rows.
   */
  lemma ForeignRequestSubstituted(companies: seq<Company>, sheets: seq<SheetRow>, user: Session, requested: int, i: nat)
    requires Lower(user.role) == user.role && !IsAdmin(user)
    requires requested != 0 && Some(requested) != user.companyId
    requires i < |sheets| && Some(sheets[i].companyId) == user.companyId
    ensures Db.GetBalanceSheet(companies, sheets, user, Some(requested)) == Db.Plain([])
    ensures FiguresOf(sheets[i]) in GetBalanceSheet(sheets, user, Some(requested), None, None)
  {
    assert !IsGroupAdmin(user);
    GetBalanceSheetMembers(sheets, user, Some(requested), None, None, FiguresOf(sheets[i]));
  }

  /** Without a requested company, db.py and app.py return the same rows to anyone but a group administrator. */
  lemma OwnRowsAgree(companies: seq<Company>, sheets: seq<SheetRow>, user: Session)
    requires Lower(user.role) == user.role && !IsAdmin(user)
    ensures multiset(GetBalanceSheet(sheets, user, None, None, None))
            == multiset(Db.GetBalanceSheet(companies, sheets, user, None).rows)
  {
    SelectSame(sheets, Where(ScopeOf(user, None), None, None), Db.OfUser(user));
  }

  // =====================================================================
  // signup (app.py:93-115)

  /** The JSON body; a missing "role" is `None` and defaults to "analyst". */
  datatype SignupRequest = SignupRequest(username: Option<string>, password: Option<string>, role: Option<string>,
                                         companyId: Option<int>)

  datatype SignupReply = SignupOk | SignupError(message: string)

  const NoCompanyMessage := "Non-admin users must have a company_id"
  const TakenMessage := "Username already exists"

  /** `data.get("role", "analyst").lower()` */
  function SignupRole(req: SignupRequest): string {
    Lower(req.role.GetOr("analyst"))
  }

  /** The reply and the users table after the request. */
  datatype SignupResult = SignupResult(reply: SignupReply, users: UserTable)

  /**
   * `signup()`: a non-administrator without a company is refused before
   * anything is written; otherwise the user is inserted, and any integrity
   * error (a NULL username or password, a taken username, a role the schema
   * refuses) is reported as a taken username.
   */
  function Signup(users: UserTable, check: RoleCheck, req: SignupRequest): (r: SignupResult)
    ensures SignupRole(req) != "groupadmin" && !Truthy(req.companyId) ==> r == SignupResult(SignupError(NoCompanyMessage), users)
    ensures r.reply == SignupOk <==>
              (SignupRole(req) == "groupadmin" || Truthy(req.companyId))
              && req.username.Some? && req.password.Some? && RoleAdmitted(check, SignupRole(req))
              && !UsernameTaken(users.rows, req.username.value)
    ensures r.reply == SignupOk ==>
              r.users.rows == users.rows + [User(users.nextId, req.username.value, req.password.value, SignupRole(req), req.companyId)]
    ensures r.reply == SignupOk ==> r.users.nextId == users.nextId + 1
    ensures r.reply != SignupOk ==> r.users == users
    ensures r.reply == SignupOk || r.reply == SignupError(NoCompanyMessage) || r.reply == SignupError(TakenMessage)
    ensures UsersValid(users, check) ==> UsersValid(r.users, check)
    ensures UsersValid(users, CaseInsensitive) ==> UsersValid(r.users, CaseInsensitive)
  {
    var role := SignupRole(req);
    if role != "groupadmin" && !Truthy(req.companyId) then
      SignupResult(SignupError(NoCompanyMessage), users)
    else
      match InsertUser(users, check, req.username, req.password, role, req.companyId)
      case Some(t) =>
        InsertUserCaseInsensitive(users, check, req.username, req.password, role, req.companyId);
        assert t.rows == t.rows[..|users.rows|] + [t.rows[|users.rows|]];
        SignupResult(SignupOk, t)
      case None => SignupResult(SignupError(TakenMessage), users)
  }

  /** A user who signed up can log in, and gets a session with the role as stored. */
  lemma SignupThenLogin(users: UserTable, check: RoleCheck, req: SignupRequest)
    requires Signup(users, check, req).reply == SignupOk
    ensures CheckUser(Signup(users, check, req).users.rows, req.username, req.password)
            == Some(Session(users.nextId, req.username.value, SignupRole(req), req.companyId))
  {
    var rows := Signup(users, check, req).users.rows;
    var u := User(users.nextId, req.username.value, req.password.value, SignupRole(req), req.companyId);
    assert rows[|users.rows|] == u;
    assert FindUser(rows, u.username, u.password) == Some(u);
    LowerIdempotent(req.role.GetOr("analyst"));
  }

  /**
   * As written, a group administrator can never sign up: the role is
   * lower-cased to "groupadmin", which the schema's CHECK refuses, and the
   * refusal is reported as a taken username.
   */
  lemma GroupAdminSignupRefused(users: UserTable, req: SignupRequest)
    requires SignupRole(req) == "groupadmin"
    ensures Signup(users, AsWritten, req) == SignupResult(SignupError(TakenMessage), users)
  {
  }

  /** With the role checked case-insensitively, a new group administrator is accepted. */
  lemma GroupAdminSignupAccepted(users: UserTable, req: SignupRequest)
    requires SignupRole(req) == "groupadmin"
    requires req.username.Some? && req.password.Some? && !UsernameTaken(users.rows, req.username.value)
    ensures Signup(users, CaseInsensitive, req).reply == SignupOk
  {
    LowerIdempotent(req.role.GetOr("analyst"));
  }

  /** `signup()` against the database; `check` is the role constraint of its schema. */
  method SignupRequestOn(db: Database, check: RoleCheck, req: SignupRequest) returns (reply: SignupReply)
    requires db.Valid()
    modifies db
    ensures db.Valid()
    ensures db.companies == old(db.companies) && db.sheets == old(db.sheets)
    ensures SignupResult(reply, db.users) == Signup(old(db.users), check, req)
  {
    var role := SignupRole(req);
    if role != "groupadmin" && !Truthy(req.companyId) {
      return SignupError(NoCompanyMessage);
    }
    var inserted := InsertUser(db.users, check, req.username, req.password, role, req.companyId);
    if inserted.None? {
      return SignupError(TakenMessage);
    }
    InsertUserCaseInsensitive(db.users, check, req.username, req.password, role, req.companyId);
    db.users := inserted.value;
    reply := SignupOk;
  }

  // =====================================================================
  // ask (app.py:135-152); the language-model call itself is not modelled

  const QuestionRequired := "Question is required"

  /** What `/ask` does with a request: refuse it, or send this prompt to the model. */
  datatype AskReply = AskError(message: string) | AskPrompt(prompt: string)

  /** `"\n".join([str(r) for r in rows])`, with `render` standing for `str` of a row tuple. */
  function Context(rows: seq<Figures>, render: Figures -> string): string {
    Join(seq(|rows|, i requires 0 <= i < |rows| => render(rows[i])), '\n')
  }

  const PromptIntro := "Answer the question based on the balance sheet data below:\n\n"
  const QuestionLead := "\n\nQuestion: "
  const AnswerTail := "\nAnswer concisely:"

  /** The prompt `ask_deepseek` builds (app.py:75): the context, then the question, between fixed texts. */
  function Prompt(context: string, question: string): (p: string)
    ensures |p| == |PromptIntro| + |context| + |QuestionLead| + |question| + |AnswerTail|
    ensures OccursAt(p, PromptIntro, 0)
    ensures OccursAt(p, context, |PromptIntro|)
    ensures OccursAt(p, QuestionLead, |PromptIntro| + |context|)
    ensures OccursAt(p, question, |PromptIntro| + |context| + |QuestionLead|)
    ensures OccursAt(p, AnswerTail, |p| - |AnswerTail|)
  {
    var p := PromptIntro + context + QuestionLead + question + AnswerTail;
    assert p[..|PromptIntro|] == PromptIntro;
    assert p[|PromptIntro|..|PromptIntro| + |context|] == context;
    assert p[|PromptIntro| + |context|..|PromptIntro| + |context| + |QuestionLead|] == QuestionLead;
    assert p[|PromptIntro| + |context| + |QuestionLead|..|PromptIntro| + |context| + |QuestionLead| + |question|] == question;
    assert p[|p| - |AnswerTail|..] == AnswerTail;
    p
  }

  function Ask(sheets: seq<SheetRow>, user: Session, question: Option<string>, companyId: Option<int>,
               render: Figures -> string): (r: AskReply)
    ensures r.AskError? <==> question.None? || question.value == ""
    ensures r.AskError? ==> r.message == QuestionRequired
    ensures r.AskPrompt? ==> r.prompt == Prompt(Context(GetBalanceSheet(sheets, user, companyId, None, None), render), question.value)
  {
    if question.None? || question.value == "" then AskError(QuestionRequired)
    else
      var rows := GetBalanceSheet(sheets, user, companyId, None, None);
      AskPrompt(Prompt(Context(rows, render), question.value))
  }

  /** The context has one line per returned row, in query order, as long as no rendered row spans lines. */
  lemma ContextLines(rows: seq<Figures>, render: Figures -> string)
    requires |rows| > 0
    requires forall i :: 0 <= i < |rows| ==> '\n' !in render(rows[i])
    ensures |Split(Context(rows, render), '\n')| == |rows|
    ensures forall i :: 0 <= i < |rows| ==> Split(Context(rows, render), '\n')[i] == render(rows[i])
  {
    SplitJoin(seq(|rows|, i requires 0 <= i < |rows| => render(rows[i])), '\n');
  }
}

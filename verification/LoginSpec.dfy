/** What each call of the login manager does to the tables, as a function of the
    tables, the arguments and the server's answers to the statements the call issues. */
module LoginSpec {
  import opened Basics
  import opened LoginTables

  const SUCCESS := 0
  const SYSTEM_ERROR := -1
  const DB_OP_FAILED := -2
  const ALREADY_REGIST := -3
  const USERNAME_OR_PASSWD_ERROR := -5

  /** The texts the services put in a reply's `msg`, and the one the receiver sends by itself. */
  datatype Notice = LoginSuccess | LogoutSuccess | RegistSuccess | AlreadyRegist(user: string)
                  | SelectFailed | PairUnknown | InsertFailed | NoClientFd | TakeoverFailed
                  | LogoutSelectFailed | LogoutUpdateFailed
                  | RegistUnexpected | LoginUnexpected | LogoutUnexpected
                  | FormatError | IllegalOperation | LogoutOrder

  function Render(n: Notice): string {
    match n
    case LoginSuccess => "login success!"
    case LogoutSuccess => "logout success!"
    case RegistSuccess => "regist success!"
    case AlreadyRegist(user) => user + " already regist!"
    case SelectFailed => "select DB data failed!"
    case PairUnknown => "userName or passWord error!"
    case InsertFailed => "system error: insert data into DB failed!"
    case NoClientFd => "system error: Get already logined client fd failed!"
    case TakeoverFailed => "system error: update DB data failed!"
    case LogoutSelectFailed => "SYSTEM ERROR: select data from DB failed!"
    case LogoutUpdateFailed => "SYSTEM ERROR: update data to DB failed!"
    case RegistUnexpected => "SYSTEM ERROR: process regist occur unexpect error!"
    case LoginUnexpected => "SYSTEM ERROR: process login occur unexpect error!"
    case LogoutUnexpected => "SYSTEM ERROR: process logout occur unexpect error!"
    case FormatError => "SYSTEM ERROR:Message format error!"
    case IllegalOperation => "SYSTEM ERROR: operateType is illegal!"
    case LogoutOrder => "logout"
  }

  /** A terminal leaves when it reads exactly "logout"; no other reply reads like that,
      whatever the user is called. */
  lemma OnlyEvictionReadsLogout(n: Notice)
    ensures Render(n) == "logout" <==> n == LogoutOrder
  {
    var s := Render(n);
    if n != LogoutOrder {
      assert |s| > 6;
    }
  }

  /** The server's answer to the k-th statement of a run. */
  type Server = nat -> Outcome

  /** A failed C `assert` ends the process; otherwise the call returns. */
  datatype CallOut = Crashed | Returned(ret: int, logoutFd: int, code: int, msg: Notice)

  /** Tables after the call, number of statements issued, and how the call ended. */
  datatype Step = Step(t: Tables, used: nat, out: CallOut)

  predicate KnownPair(t: Tables, user: string, password: string) {
    ToInt(CountAccounts(t.accounts, user, Some(password))) != 0
  }

  /** `isAlreadyLogined` answers true when its select fails, because -1 converts to true. */
  predicate AnswersLogined(t: Tables, user: string, o: Outcome) {
    o.Done? ==> ToInt(|Live(t.logins, user)|) != 0
  }

  /** The key that the takeover's update names: the row id after `int` and back. */
  function TakeoverKey(id: nat): int { ToUnsignedLong(ToInt(id)) }

  function LoginStep(t: Tables, server: Server, k: nat, user: string, password: string, fd: int): Step {
    if !server(k).Done? then
      Step(t, 1, Returned(-1, -1, SYSTEM_ERROR, SelectFailed))
    else if !KnownPair(t, user, password) then
      Step(t, 1, Returned(-1, -1, USERNAME_OR_PASSWD_ERROR, PairUnknown))
    else if !AnswersLogined(t, user, server(k + 1)) then
      Step(InsertLogin(t, user, password, fd, server(k + 2)), 3,
           if server(k + 2).Done? then Returned(0, -1, SUCCESS, LoginSuccess)
           else Returned(-1, -1, DB_OP_FAILED, InsertFailed))
    else if !server(k + 2).Done? then
      Step(t, 3, Returned(-1, -1, SYSTEM_ERROR, NoClientFd))
    else if |Live(t.logins, user)| != 1 then
      Step(t, 3, Crashed)
    else
      TakeoverStep(t, server, k + 3, Live(t.logins, user)[0], user, password, fd)
  }

  /** `setLogoutStatusThenLogin`: two statements and no transaction around them. */
  function TakeoverStep(t: Tables, server: Server, k: nat, row: Login, user: string, password: string, fd: int): Step {
    var evicted := UpdateOut(t, TakeoverKey(row.id), server(k));
    if !server(k).Done? then
      Step(evicted, 4, Returned(-1, row.fd, SYSTEM_ERROR, TakeoverFailed))
    else
      Step(InsertLogin(evicted, user, password, fd, server(k + 1)), 5,
           if server(k + 1).Done? then Returned(0, row.fd, SUCCESS, LoginSuccess)
           else Returned(-1, row.fd, SYSTEM_ERROR, TakeoverFailed))
  }

  function LogoutStep(t: Tables, server: Server, k: nat, user: string): Step {
    var live := Live(t.logins, user);
    if !server(k).Done? then
      Step(t, 1, Returned(-1, -1, DB_OP_FAILED, LogoutSelectFailed))
    else if live == [] then
      Step(t, 1, Returned(0, -1, SUCCESS, LogoutSuccess))
    else
      Step(UpdateOut(t, ToInt(live[0].id), server(k + 1)), 2,
           if server(k + 1).Done? then Returned(0, -1, SUCCESS, LogoutSuccess)
           else Returned(-1, -1, DB_OP_FAILED, LogoutUpdateFailed))
  }

  function RegistStep(t: Tables, server: Server, k: nat, user: string, password: string): Step {
    if !server(k).Done? then
      Step(t, 1, Returned(-1, -1, DB_OP_FAILED, InsertFailed))
    else if ToInt(CountAccounts(t.accounts, user, None)) != 0 then
      Step(t, 1, Returned(0, -1, ALREADY_REGIST, AlreadyRegist(user)))
    else
      Step(InsertAccount(t, user, password, server(k + 1)), 2,
           if server(k + 1).Done? then Returned(0, -1, SUCCESS, RegistSuccess)
           else Returned(-1, -1, DB_OP_FAILED, InsertFailed))
  }

  // ---------------------------------------------------------------- counting under the invariant

  lemma {:induction false} AtMostOneAccount(rows: seq<Account>, user: string, password: Option<string>)
    requires UniqueUsers(rows)
    ensures CountAccounts(rows, user, password) <= 1
  {
    if rows != [] {
      var init, last := rows[..|rows| - 1], rows[|rows| - 1];
      AtMostOneAccount(init, user, password);
      CountMeaning(init, user, password);
      forall a | a in init && a.user == user ensures last.user != user {
        var i :| 0 <= i < |init| && init[i] == a;
        assert rows[i] == a;
      }
    }
  }

  lemma KnownPairMeaning(t: Tables, user: string, password: string)
    requires UniqueUsers(t.accounts)
    ensures KnownPair(t, user, password) <==> Account(user, password) in t.accounts
    ensures KnownPair(t, user, password) <==> user in Accounts(t.accounts) && Accounts(t.accounts)[user] == password
  {
    AtMostOneAccount(t.accounts, user, Some(password));
    CountMeaning(t.accounts, user, Some(password));
    AccountKey(t.accounts, user, password);
    assert (exists a :: a in t.accounts && a.user == user && a.password == password) <==>
           Account(user, password) in t.accounts
    by {
      forall a | a in t.accounts && a.user == user && a.password == password
        ensures a == Account(user, password) {}
      if Account(user, password) in t.accounts {
        var a := Account(user, password);
        assert a in t.accounts && a.user == user && a.password == password;
      }
    }
  }

  lemma AnswersLoginedMeaning(t: Tables, user: string, o: Outcome)
    requires SingleTerminal(t.logins)
    ensures |Live(t.logins, user)| <= 1
    ensures AnswersLogined(t, user, o) <==> !o.Done? || user in Sessions(t.logins)
  {
    AtMostOneLive(t.logins, user);
    SessionKey(t.logins, user);
  }

  // ---------------------------------------------------------------- statements

  lemma SetOutKeys(rows: seq<Login>, nextId: nat, id: int)
    requires KeysIncrease(rows, nextId)
    ensures KeysIncrease(SetOut(rows, id), nextId)
  {
  }

  lemma SetOutSingle(rows: seq<Login>, id: int)
    requires SingleTerminal(rows)
    ensures SingleTerminal(SetOut(rows, id))
  {
  }

  lemma SetOutRow(rows: seq<Login>, id: int, r: Login)
    requires r in SetOut(rows, id)
    ensures r in rows || exists x :: x in rows && r == x.(status := OUT)
  {
    var after := SetOut(rows, id);
    var i :| 0 <= i < |after| && after[i] == r;
    assert rows[i] in rows;
  }

  lemma UpdateKeepsShape(t: Tables, id: int, o: Outcome)
    requires WellFormed(t)
    ensures WellFormed(UpdateOut(t, id, o)) && Grows(t, UpdateOut(t, id, o))
    ensures SingleTerminal(t.logins) ==> SingleTerminal(UpdateOut(t, id, o).logins)
  {
    SetOutKeys(t.logins, t.nextId, id);
    SetOutRegistered(t, id);
    if SingleTerminal(t.logins) { SetOutSingle(t.logins, id); }
  }

  lemma SetOutRegistered(t: Tables, id: int)
    requires Registered(t) && Statuses(t.logins)
    ensures Registered(t.(logins := SetOut(t.logins, id))) && Statuses(SetOut(t.logins, id))
  {
    forall r | r in SetOut(t.logins, id)
      ensures Account(r.user, r.password) in t.accounts && (r.status == LIVE || r.status == OUT)
    {
      SetOutRow(t.logins, id, r);
    }
  }

  lemma AppendKeys(rows: seq<Login>, nextId: nat, r: Login)
    requires KeysIncrease(rows, nextId) && r.id >= nextId
    ensures KeysIncrease(rows + [r], r.id + 1)
  {
  }

  lemma AppendSingle(rows: seq<Login>, r: Login)
    requires SingleTerminal(rows) && Live(rows, r.user) == []
    ensures SingleTerminal(rows + [r])
  {
    NoneLive(rows, r.user);
    var all := rows + [r];
    forall i, j | 0 <= i < j < |all| && IsLive(all[i]) && IsLive(all[j]) ensures all[i].user != all[j].user {
      assert all[i] in rows;
    }
  }

  lemma AppendStatuses(rows: seq<Login>, r: Login)
    requires Statuses(rows) && r.status == LIVE
    ensures Statuses(rows + [r])
  {
  }

  lemma AppendRegistered(t: Tables, r: Login, nextId: nat)
    requires Registered(t) && Account(r.user, r.password) in t.accounts
    ensures Registered(t.(logins := t.logins + [r], nextId := nextId))
  {
  }

  lemma AppendGrows(t: Tables, r: Login)
    requires r.id >= t.nextId
    ensures Grows(t, t.(logins := t.logins + [r], nextId := r.id + 1))
  {
  }

  lemma AppendShape(t: Tables, r: Login)
    requires WellFormed(t) && Account(r.user, r.password) in t.accounts && r.id >= t.nextId && r.status == LIVE
    ensures WellFormed(t.(logins := t.logins + [r], nextId := r.id + 1))
  {
    AppendKeys(t.logins, t.nextId, r);
    AppendRegistered(t, r, r.id + 1);
    AppendStatuses(t.logins, r);
  }

  lemma InsertKeepsShape(t: Tables, user: string, password: string, fd: int, o: Outcome)
    requires WellFormed(t) && Account(user, password) in t.accounts
    ensures WellFormed(InsertLogin(t, user, password, fd, o)) && Grows(t, InsertLogin(t, user, password, fd, o))
  {
    if o.Ran() {
      var r := Login(t.nextId + o.skipped, user, password, fd, LIVE);
      AppendShape(t, r);
      AppendGrows(t, r);
    }
  }

  lemma InsertKeepsSingle(t: Tables, user: string, password: string, fd: int, o: Outcome)
    requires SingleTerminal(t.logins) && (o.Ran() ==> Live(t.logins, user) == [])
    ensures SingleTerminal(InsertLogin(t, user, password, fd, o).logins)
  {
    if o.Ran() { AppendSingle(t.logins, Login(t.nextId + o.skipped, user, password, fd, LIVE)); }
  }

  // ---------------------------------------------------------------- sessions as a map

  lemma InsertSession(t: Tables, user: string, password: string, fd: int, o: Outcome)
    ensures Sessions(InsertLogin(t, user, password, fd, o).logins) ==
            if o.Ran() then Sessions(t.logins)[user := fd] else Sessions(t.logins)
  {
    if o.Ran() {
      SessionsAppend(t.logins, Login(t.nextId + o.skipped, user, password, fd, LIVE));
    }
  }

  /** A row key names one row only. */
  lemma KeyIsUnique(t: Tables, row: Login, i: nat)
    requires WellFormed(t) && row in t.logins && i < |t.logins| && t.logins[i].id == row.id
    ensures t.logins[i] == row
  {
    var j :| 0 <= j < |t.logins| && t.logins[j] == row;
    assert !(i < j) && !(j < i);
  }
}

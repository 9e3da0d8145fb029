/** The login manager's classes: the SQL access object with its result buffer, and the
    register and login operations that run over it statement by statement. */
module LoginService {
  import opened Basics
  import opened LoginTables
  import opened LoginSpec

  /** The selects the login manager issues. */
  datatype Query = CountUser(user: string)
                 | CountPair(user: string, password: string)
                 | CountLive(user: string)
                 | LiveIds(user: string)
                 | LiveIdsAndFds(user: string)

  function Answer(t: Tables, q: Query): seq<seq<int>> {
    match q
    case CountUser(user) => [[CountAccounts(t.accounts, user, None)]]
    case CountPair(user, password) => [[CountAccounts(t.accounts, user, Some(password))]]
    case CountLive(user) => [[|Live(t.logins, user)|]]
    case LiveIds(user) =>
      var live := Live(t.logins, user);
      seq(|live|, i requires 0 <= i < |live| => [live[i].id])
    case LiveIdsAndFds(user) =>
      var live := Live(t.logins, user);
      seq(|live|, i requires 0 <= i < |live| => [live[i].id, live[i].fd])
  }

  function Fields(q: Query): nat { if q.LiveIdsAndFds? then 2 else 1 }

  /** The server side: the tables, its answers, and how many statements it has seen. */
  class Database {
    const server: Server
    var t: Tables
    var tick: nat

    constructor (server: Server, t: Tables)
      ensures this.server == server && this.t == t && tick == 0
    {
      this.server := server;
      this.t := t;
      tick := 0;
    }
  }

  class SqlApi {
    const db: Database
    var rows: seq<seq<int>>
    var rowsCount: nat
    var fieldsCount: nat

    constructor (db: Database)
      ensures this.db == db && rows == []
    {
      this.db := db;
      rows, rowsCount, fieldsCount := [], 0, 0;
    }

    /** `Loginer` and `Register` hold their own copy, on the same connection. */
    constructor Copy(other: SqlApi)
      ensures db == other.db && rows == other.rows && rowsCount == other.rowsCount && fieldsCount == other.fieldsCount
    {
      db := other.db;
      rows, rowsCount, fieldsCount := other.rows, other.rowsCount, other.fieldsCount;
    }

    /** Appends the fetched rows to the buffer, so the buffer holds this query's answer
        alone only when it was empty before. */
    method Select(q: Query) returns (ret: int)
      modifies this, db`tick
      ensures db.tick == old(db.tick) + 1
      ensures ret == (if db.server(old(db.tick)).Done? then 0 else -1)
      ensures ret == 0 ==> rows == old(rows) + Answer(db.t, q)
                           && rowsCount == |Answer(db.t, q)| && fieldsCount == Fields(q)
      ensures ret != 0 ==> rows == old(rows) && rowsCount == old(rowsCount) && fieldsCount == old(fieldsCount)
    {
      var o := db.server(db.tick);
      db.tick := db.tick + 1;
      if !o.Done? { return -1; }
      var fetched := Answer(db.t, q);
      rowsCount, fieldsCount := |fetched|, Fields(q);
      var i := 0;
      while i < |fetched|
        invariant i <= |fetched|
        invariant rows == old(rows) + fetched[..i]
        invariant rowsCount == |fetched| && fieldsCount == Fields(q) && db.tick == old(db.tick) + 1
      {
        rows := rows + [fetched[i]];
        i := i + 1;
      }
      ret := 0;
    }

    method GetResult() returns (result: seq<seq<int>>, rowCount: nat, fieldCount: nat)
      modifies this
      ensures result == old(rows) && rowCount == old(rowsCount) && fieldCount == old(fieldsCount)
      ensures rows == [] && rowsCount == 0 && fieldsCount == 0
    {
      result, rowCount, fieldCount := rows, rowsCount, fieldsCount;
      rows, rowsCount, fieldsCount := [], 0, 0;
    }

    method UpdateStatus(id: int) returns (ret: int)
      modifies db
      ensures db.tick == old(db.tick) + 1
      ensures db.t == UpdateOut(old(db.t), id, db.server(old(db.tick)))
      ensures ret == (if db.server(old(db.tick)).Done? then 0 else -1)
    {
      var o := db.server(db.tick);
      db.t := UpdateOut(db.t, id, o);
      db.tick := db.tick + 1;
      ret := if o.Done? then 0 else -1;
    }

    method InsertSession(user: string, password: string, fd: int) returns (ret: int)
      modifies db
      ensures db.tick == old(db.tick) + 1
      ensures db.t == InsertLogin(old(db.t), user, password, fd, db.server(old(db.tick)))
      ensures ret == (if db.server(old(db.tick)).Done? then 0 else -1)
    {
      var o := db.server(db.tick);
      db.t := InsertLogin(db.t, user, password, fd, o);
      db.tick := db.tick + 1;
      ret := if o.Done? then 0 else -1;
    }

    method InsertUser(user: string, password: string) returns (ret: int)
      modifies db
      ensures db.tick == old(db.tick) + 1
      ensures db.t == InsertAccount(old(db.t), user, password, db.server(old(db.tick)))
      ensures ret == (if db.server(old(db.tick)).Done? then 0 else -1)
    {
      var o := db.server(db.tick);
      db.t := InsertAccount(db.t, user, password, o);
      db.tick := db.tick + 1;
      ret := if o.Done? then 0 else -1;
    }
  }

  /** The outcome a method produced, as the step function describes it. */
  ghost predicate Did(s: Step, before: nat, db: Database, out: CallOut)
    reads db
  {
    db.t == s.t && db.tick == before + s.used && out == s.out
  }

  /** The statements of a login from the third on, when the user counts as logged in. */
  ghost function ForceStep(t: Tables, server: Server, k: nat, user: string, password: string, fd: int): Step {
    if !server(k).Done? then Step(t, 1, Returned(-1, -1, SYSTEM_ERROR, NoClientFd))
    else if |Live(t.logins, user)| != 1 then Step(t, 1, Crashed)
    else
      var s := TakeoverStep(t, server, k + 1, Live(t.logins, user)[0], user, password, fd);
      s.(used := s.used - 2)
  }

  class Loginer {
    const api: SqlApi

    constructor (original: SqlApi)
      requires original.rows == []
      ensures fresh(api) && api.db == original.db && api.rows == []
    {
      api := new SqlApi.Copy(original);
    }

    method ProcessLogin(user: string, password: string, fd: int) returns (out: CallOut)
      requires api.rows == []
      modifies api, api.db
      ensures api.rows == []
      ensures Did(LoginStep(old(api.db.t), api.db.server, old(api.db.tick), user, password, fd),
                  old(api.db.tick), api.db, out)
    {
      var ret, isValid := IsValidUserNameAndPassword(user, password);
      if ret < 0 { return Returned(-1, -1, SYSTEM_ERROR, SelectFailed); }
      if !isValid { return Returned(-1, -1, USERNAME_OR_PASSWD_ERROR, PairUnknown); }
      var logined := IsAlreadyLogined(user);
      if !logined {
        ret := api.InsertSession(user, password, fd);
        if ret != 0 { return Returned(-1, -1, DB_OP_FAILED, InsertFailed); }
        return Returned(0, -1, SUCCESS, LoginSuccess);
      }
      out := ForceLogin(user, password, fd);
    }

    /** The branch of `processLogin` for a user who is logged in elsewhere. */
    method ForceLogin(user: string, password: string, fd: int) returns (out: CallOut)
      requires api.rows == []
      modifies api, api.db
      ensures api.rows == []
      ensures Did(ForceStep(old(api.db.t), api.db.server, old(api.db.tick), user, password, fd),
                  old(api.db.tick), api.db, out)
    {
      var ret, crashed, oldFd, id := GetAlreadyLoginedClientFd(user);
      if crashed { return Crashed; }
      if ret != 0 { return Returned(-1, -1, SYSTEM_ERROR, NoClientFd); }
      var logoutFd := oldFd;
      ret := SetLogoutStatusThenLogin(id, user, password, fd);
      if ret != 0 { return Returned(-1, logoutFd, SYSTEM_ERROR, TakeoverFailed); }
      out := Returned(0, logoutFd, SUCCESS, LoginSuccess);
    }

    method ProcessLogout(user: string) returns (out: CallOut)
      requires api.rows == []
      modifies api, api.db
      ensures api.rows == []
      ensures Did(LogoutStep(old(api.db.t), api.db.server, old(api.db.tick), user), old(api.db.tick), api.db, out)
    {
      var ret := api.Select(LiveIds(user));
      if ret != 0 { return Returned(-1, -1, DB_OP_FAILED, LogoutSelectFailed); }
      var rows, rowCount, fieldCount := api.GetResult();
      if rowCount <= 0 { return Returned(0, -1, SUCCESS, LogoutSuccess); }
      assert fieldCount == 1;
      var id := ToInt(rows[0][0]);
      ret := api.UpdateStatus(id);
      if ret != 0 { return Returned(-1, -1, DB_OP_FAILED, LogoutUpdateFailed); }
      out := Returned(0, -1, SUCCESS, LogoutSuccess);
    }

    method IsValidUserNameAndPassword(user: string, password: string) returns (ret: int, isValid: bool)
      requires api.rows == []
      modifies api, api.db`tick
      ensures api.rows == [] && api.db.tick == old(api.db.tick) + 1
      ensures ret == (if api.db.server(old(api.db.tick)).Done? then 0 else -1)
      ensures ret == 0 ==> isValid == KnownPair(api.db.t, user, password)
    {
      isValid := false;
      ret := api.Select(CountPair(user, password));
      if ret != 0 { return -1, false; }
      var rows, rowCount, fieldCount := api.GetResult();
      assert rowCount == 1 && fieldCount == 1;
      isValid := ToInt(rows[0][0]) != 0;
    }

    method IsAlreadyLogined(user: string) returns (logined: bool)
      requires api.rows == []
      modifies api, api.db`tick
      ensures api.rows == [] && api.db.tick == old(api.db.tick) + 1
      ensures logined == AnswersLogined(api.db.t, user, api.db.server(old(api.db.tick)))
    {
      var ret := api.Select(CountLive(user));
      if ret != 0 { return true; }   // `return -1` from a bool function
      var rows, rowCount, fieldCount := api.GetResult();
      assert rowCount == 1 && fieldCount == 1;
      logined := ToInt(rows[0][0]) != 0;
    }

    method GetAlreadyLoginedClientFd(user: string) returns (ret: int, crashed: bool, fd: int, id: int)
      requires api.rows == []
      modifies api, api.db`tick
      ensures api.rows == [] && api.db.tick == old(api.db.tick) + 1
      ensures crashed == (api.db.server(old(api.db.tick)).Done? && |Live(api.db.t.logins, user)| != 1)
      ensures !crashed ==> ret == (if api.db.server(old(api.db.tick)).Done? then 0 else -1)
      ensures !crashed && ret == 0 ==>
                fd == Live(api.db.t.logins, user)[0].fd && id == TakeoverKey(Live(api.db.t.logins, user)[0].id)
    {
      ret := api.Select(LiveIdsAndFds(user));
      if ret != 0 { return -1, false, 0, 0; }
      var rows, rowCount, fieldCount := api.GetResult();
      if rowCount != 1 { return -1, true, 0, 0; }
      assert fieldCount == 2;
      var narrow := ToInt(rows[0][0]);
      return 0, false, rows[0][1], ToUnsignedLong(narrow);
    }

    method SetLogoutStatusThenLogin(id: int, user: string, password: string, fd: int) returns (ret: int)
      modifies api.db
      ensures var o, o' := api.db.server(old(api.db.tick)), api.db.server(old(api.db.tick) + 1);
              var evicted := UpdateOut(old(api.db.t), id, o);
              && api.db.t == (if o.Done? then InsertLogin(evicted, user, password, fd, o') else evicted)
              && api.db.tick == old(api.db.tick) + (if o.Done? then 2 else 1)
              && ret == (if o.Done? && o'.Done? then 0 else -1)
    {
      ret := api.UpdateStatus(id);
      if ret != 0 { return -1; }
      ret := api.InsertSession(user, password, fd);
    }
  }

  class Register {
    const api: SqlApi

    constructor (original: SqlApi)
      requires original.rows == []
      ensures fresh(api) && api.db == original.db && api.rows == []
    {
      api := new SqlApi.Copy(original);
    }

    method ProcessRegist(user: string, password: string) returns (out: CallOut)
      requires api.rows == []
      modifies api, api.db
      ensures api.rows == []
      ensures Did(RegistStep(old(api.db.t), api.db.server, old(api.db.tick), user, password),
                  old(api.db.tick), api.db, out)
    {
      var ret := api.Select(CountUser(user));
      if ret != 0 { return Returned(-1, -1, DB_OP_FAILED, InsertFailed); }
      var rows, rowCount, fieldCount := api.GetResult();
      assert rowCount == 1 && fieldCount == 1;
      if ToInt(rows[0][0]) != 0 { return Returned(0, -1, ALREADY_REGIST, AlreadyRegist(user)); }
      ret := api.InsertUser(user, password);
      if ret != 0 { return Returned(-1, -1, DB_OP_FAILED, InsertFailed); }
      out := Returned(0, -1, SUCCESS, RegistSuccess);
    }
  }
}

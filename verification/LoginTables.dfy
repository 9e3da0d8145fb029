/** The two MySQL tables behind the login manager, and the statements it issues.

    Tables are sequences of rows in insertion order.  `t_user_login` has an
    auto-increment key, so a new row's id lies above every id handed out before. */
module LoginTables {

  import opened Basics

  const LIVE := 1
  const OUT := 2
  const INT_LIMIT := 0x8000_0000
  const WORD := 0x1_0000_0000
  const LONG := 0x1_0000_0000_0000_0000

  datatype Account = Account(user: string, password: string)

  datatype Login = Login(id: nat, user: string, password: string, fd: int, status: int)

  datatype Tables = Tables(accounts: seq<Account>, logins: seq<Login>, nextId: nat)

  /** What the server did with one statement.  `Done` ran it and said so, `Rejected`
      did not run it, `Lost` ran it but the caller was told that it failed.
      `skipped` is the number of auto-increment keys passed over before the one used. */
  datatype Outcome = Done(skipped: nat) | Rejected | Lost(skipped: nat) {
    predicate Ran() { !Rejected? }
  }

  predicate IsLive(r: Login) { r.status == LIVE }

  /** The rows `where FstrUserName = user and FuiStatus = 1` selects, in table order. */
  function Live(rows: seq<Login>, user: string): (r: seq<Login>) {
    if rows == [] then []
    else
      var last := rows[|rows| - 1];
      Live(rows[..|rows| - 1], user) + (if last.user == user && IsLive(last) then [last] else [])
  }

  /** How many accounts a `select count(1)` over `t_user_password` counts. */
  function CountAccounts(rows: seq<Account>, user: string, password: Option<string>): (n: nat) {
    if rows == [] then 0
    else
      var last := rows[|rows| - 1];
      CountAccounts(rows[..|rows| - 1], user, password) +
      if last.user == user && (password.Some? ==> last.password == password.value) then 1 else 0
  }

  /** `update user.t_user_login set FuiStatus = 2 where FuiId = id` */
  function SetOut(rows: seq<Login>, id: int): (r: seq<Login>)
    ensures |r| == |rows|
  {
    seq(|rows|, i requires 0 <= i < |rows| => if rows[i].id == id then rows[i].(status := OUT) else rows[i])
  }

  function UpdateOut(t: Tables, id: int, o: Outcome): Tables {
    if o.Ran() then t.(logins := SetOut(t.logins, id)) else t
  }

  function InsertLogin(t: Tables, user: string, password: string, fd: int, o: Outcome): Tables {
    if o.Ran() then
      var id := t.nextId + o.skipped;
      t.(logins := t.logins + [Login(id, user, password, fd, LIVE)], nextId := id + 1)
    else t
  }

  function InsertAccount(t: Tables, user: string, password: string, o: Outcome): Tables {
    if o.Ran() then t.(accounts := t.accounts + [Account(user, password)]) else t
  }

  // ---------------------------------------------------------------- C conversions

  /** A number read with strtoull and stored in a 32-bit `int`. */
  function ToInt(n: nat): (r: int)
    ensures -INT_LIMIT <= r < INT_LIMIT
    ensures n < INT_LIMIT ==> r == n
    ensures r == n ==> n < INT_LIMIT
  {
    var low := n % WORD;
    if low < INT_LIMIT then low else low - WORD
  }

  /** An `int` assigned to an `unsigned long long`, as the takeover does with the row id. */
  function ToUnsignedLong(n: int): (r: int)
    requires -INT_LIMIT <= n < INT_LIMIT
    ensures n >= 0 ==> r == n
    ensures n < 0 ==> r >= LONG - INT_LIMIT
  {
    if n >= 0 then n else n + LONG
  }

  // ---------------------------------------------------------------- invariants

  /** No user has two live sessions: the property the whole system is named after. */
  ghost predicate SingleTerminal(rows: seq<Login>) {
    forall i, j :: 0 <= i < j < |rows| && IsLive(rows[i]) && IsLive(rows[j]) ==> rows[i].user != rows[j].user
  }

  ghost predicate KeysIncrease(rows: seq<Login>, nextId: nat) {
    && (forall i, j :: 0 <= i < j < |rows| ==> rows[i].id < rows[j].id)
    && (forall i :: 0 <= i < |rows| ==> rows[i].id < nextId)
  }

  ghost predicate UniqueUsers(accounts: seq<Account>) {
    forall i, j :: 0 <= i < j < |accounts| ==> accounts[i].user != accounts[j].user
  }

  /** Every session ever created was opened with a registered user and password. */
  ghost predicate Registered(t: Tables) {
    forall r :: r in t.logins ==> Account(r.user, r.password) in t.accounts
  }

  ghost predicate WellFormed(t: Tables) {
    && KeysIncrease(t.logins, t.nextId)
    && UniqueUsers(t.accounts)
    && Registered(t)
    && Statuses(t.logins)
  }

  ghost predicate Statuses(rows: seq<Login>) { forall r :: r in rows ==> r.status == LIVE || r.status == OUT }

  ghost predicate Invariant(t: Tables) {
    WellFormed(t) && SingleTerminal(t.logins)
  }

  /** Rows are never removed or rewritten; a status only moves from 1 to 2. */
  ghost predicate Grows(t: Tables, t': Tables) {
    && t.accounts <= t'.accounts
    && t.nextId <= t'.nextId
    && |t.logins| <= |t'.logins|
    && forall i :: 0 <= i < |t.logins| ==>
         t'.logins[i] == t.logins[i] || t'.logins[i] == t.logins[i].(status := OUT)
  }

  /** The live rows seen as a map from user to the terminal's fd; the last row wins. */
  ghost function Sessions(rows: seq<Login>): map<string, int> {
    if rows == [] then map[]
    else
      var init, last := rows[..|rows| - 1], rows[|rows| - 1];
      if IsLive(last) then Sessions(init)[last.user := last.fd] else Sessions(init)
  }

  /** The registered users and their passwords. */
  ghost function Accounts(rows: seq<Account>): map<string, string> {
    if rows == [] then map[]
    else Accounts(rows[..|rows| - 1])[rows[|rows| - 1].user := rows[|rows| - 1].password]
  }

  // ---------------------------------------------------------------- lemmas

  lemma {:induction false} LiveMember(rows: seq<Login>, user: string, x: Login)
    ensures x in Live(rows, user) <==> x in rows && x.user == user && IsLive(x)
  {
    if rows != [] {
      LiveMember(rows[..|rows| - 1], user, x);
      assert rows == rows[..|rows| - 1] + [rows[|rows| - 1]];
    }
  }

  lemma FirstLive(rows: seq<Login>, user: string)
    requires Live(rows, user) != []
    ensures var row := Live(rows, user)[0]; row in rows && row.user == user && IsLive(row)
  {
    LiveMember(rows, user, Live(rows, user)[0]);
  }

  lemma NoneLive(rows: seq<Login>, user: string)
    ensures Live(rows, user) == [] <==> forall r :: r in rows ==> !(r.user == user && IsLive(r))
  {
    if Live(rows, user) != [] {
      FirstLive(rows, user);
    }
    forall r | r in rows && r.user == user && IsLive(r) ensures Live(rows, user) != [] {
      LiveMember(rows, user, r);
    }
  }

  /** Counting the live rows of each user is the same as looking at pairs of rows. */
  lemma {:induction false} AtMostOneLive(rows: seq<Login>, user: string)
    requires SingleTerminal(rows)
    ensures |Live(rows, user)| <= 1
  {
    if rows != [] {
      var init, last := rows[..|rows| - 1], rows[|rows| - 1];
      AtMostOneLive(init, user);
      forall x | x in init && x.user == user && IsLive(x)
        ensures !(last.user == user && IsLive(last))
      {
        var i :| 0 <= i < |init| && init[i] == x;
        assert rows[i] == x;
      }
      NoneLive(init, user);
    }
  }

  /** Setting out the only live row of a user leaves none. */
  lemma LiveAfterHit(rows: seq<Login>, nextId: nat, user: string)
    requires KeysIncrease(rows, nextId) && SingleTerminal(rows)
    requires Live(rows, user) != []
    ensures Live(SetOut(rows, Live(rows, user)[0].id), user) == []
  {
    var row := Live(rows, user)[0];
    var after := SetOut(rows, row.id);
    FirstLive(rows, user);
    forall j | 0 <= j < |after|
      ensures !(after[j].user == user && IsLive(after[j]))
    {
    }
    NoneLive(after, user);
  }

  /** The session map knows a user exactly when a select finds a live row. */
  lemma {:induction false} SessionKey(rows: seq<Login>, user: string)
    ensures user in Sessions(rows) <==> Live(rows, user) != []
    ensures var live := Live(rows, user); live != [] ==> Sessions(rows)[user] == live[|live| - 1].fd
  {
    if rows != [] {
      SessionKey(rows[..|rows| - 1], user);
    }
  }

  lemma SessionsAppend(rows: seq<Login>, r: Login)
    ensures Sessions(rows + [r]) == if IsLive(r) then Sessions(rows)[r.user := r.fd] else Sessions(rows)
  {
    assert (rows + [r])[..|rows|] == rows;
  }

  lemma SetOutMisses(rows: seq<Login>, id: int)
    requires forall i :: 0 <= i < |rows| ==> rows[i].id != id
    ensures SetOut(rows, id) == rows
  {
  }

  lemma SetOutSplit(rows: seq<Login>, id: int)
    requires rows != []
    ensures var init, last := rows[..|rows| - 1], rows[|rows| - 1];
            SetOut(rows, id) == SetOut(init, id) + [if last.id == id then last.(status := OUT) else last]
  {
  }

  lemma KeysPrefix(rows: seq<Login>, nextId: nat)
    requires rows != [] && KeysIncrease(rows, nextId) && SingleTerminal(rows)
    ensures var init, last := rows[..|rows| - 1], rows[|rows| - 1];
            && KeysIncrease(init, nextId) && SingleTerminal(init)
            && (forall i :: 0 <= i < |init| ==> init[i].id != last.id)
            && (forall x :: x in init && IsLive(x) && IsLive(last) ==> x.user != last.user)
  {
    var init, last := rows[..|rows| - 1], rows[|rows| - 1];
    forall x | x in init && IsLive(x) && IsLive(last) ensures x.user != last.user {
      var i :| 0 <= i < |init| && init[i] == x;
      assert rows[i] == x;
    }
  }

  /** Setting out a user's only live row, named by its key, removes that user from the
      session map and nothing else. */
  lemma {:induction false} SessionsAfterHit(rows: seq<Login>, nextId: nat, row: Login)
    requires KeysIncrease(rows, nextId) && SingleTerminal(rows)
    requires row in rows && IsLive(row)
    ensures Sessions(SetOut(rows, row.id)) == Sessions(rows) - {row.user}
  {
    var init, last := rows[..|rows| - 1], rows[|rows| - 1];
    SetOutSplit(rows, row.id);
    KeysPrefix(rows, nextId);
    assert rows == init + [last];
    if last == row {
      HitLast(init, row);
    } else {
      SessionsAfterHit(init, nextId, row);
      HitBefore(init, last, row);
    }
  }

  lemma HitLast(init: seq<Login>, row: Login)
    requires (forall x :: x in init && IsLive(x) ==> x.user != row.user) && IsLive(row)
    requires forall i :: 0 <= i < |init| ==> init[i].id != row.id
    ensures Sessions(SetOut(init, row.id) + [row.(status := OUT)]) == Sessions(init + [row]) - {row.user}
  {
    SetOutMisses(init, row.id);
    SessionsAppend(init, row.(status := OUT));
    SessionsAppend(init, row);
    UserAbsent(init, row.user);
    RemoveAdded(Sessions(init), row.user, row.fd);
  }

  lemma RemoveAdded(m: map<string, int>, user: string, fd: int)
    requires user !in m
    ensures m[user := fd] - {user} == m
  {
  }

  lemma HitBefore(init: seq<Login>, last: Login, row: Login)
    requires Sessions(SetOut(init, row.id)) == Sessions(init) - {row.user}
    requires IsLive(last) ==> last.user != row.user
    ensures Sessions(SetOut(init, row.id) + [last]) == Sessions(init + [last]) - {row.user}
  {
    SessionsAppend(SetOut(init, row.id), last);
    SessionsAppend(init, last);
    if IsLive(last) { RemoveBefore(Sessions(init), row.user, last.user, last.fd); }
  }

  lemma RemoveBefore(m: map<string, int>, gone: string, user: string, fd: int)
    requires user != gone
    ensures (m - {gone})[user := fd] == m[user := fd] - {gone}
  {
  }

  lemma UserAbsent(rows: seq<Login>, user: string)
    requires forall x :: x in rows && IsLive(x) ==> x.user != user
    ensures user !in Sessions(rows)
  {
    SessionKey(rows, user);
    NoneLive(rows, user);
  }

  lemma {:induction false} CountMeaning(rows: seq<Account>, user: string, password: Option<string>)
    ensures CountAccounts(rows, user, password) > 0 <==>
            exists a :: a in rows && a.user == user && (password.Some? ==> a.password == password.value)
  {
    if rows != [] {
      var init, last := rows[..|rows| - 1], rows[|rows| - 1];
      assert rows == init + [last];
      CountMeaning(init, user, password);
      if last.user == user && (password.Some? ==> last.password == password.value) {
        assert last in rows;
      }
    }
  }

  lemma UsersPrefix(rows: seq<Account>)
    requires rows != [] && UniqueUsers(rows)
    ensures var init, last := rows[..|rows| - 1], rows[|rows| - 1];
            UniqueUsers(init) && (forall a :: a in init ==> a.user != last.user) && rows == init + [last]
  {
    var init, last := rows[..|rows| - 1], rows[|rows| - 1];
    forall a | a in init ensures a.user != last.user {
      var k :| 0 <= k < |init| && init[k] == a;
      assert rows[k] == a;
    }
  }

  lemma {:induction false} AccountKey(rows: seq<Account>, user: string, password: string)
    requires UniqueUsers(rows)
    ensures user in Accounts(rows) <==> exists a :: a in rows && a.user == user
    ensures Account(user, password) in rows <==> user in Accounts(rows) && Accounts(rows)[user] == password
  {
    if rows != [] {
      var init, last := rows[..|rows| - 1], rows[|rows| - 1];
      UsersPrefix(rows);
      AccountKey(init, user, password);
      if last.user == user { assert last in rows; }
    }
  }

  lemma AccountsAppend(rows: seq<Account>, a: Account)
    ensures Accounts(rows + [a]) == Accounts(rows)[a.user := a.password]
  {
    assert (rows + [a])[..|rows|] == rows;
  }
}

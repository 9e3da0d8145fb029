/** What every call and every run of the login manager keeps, for every pattern of
    server answers. */
module LoginRuns {
  import opened Basics
  import opened LoginTables
  import opened LoginSpec

  datatype Call = Regist(user: string, password: string)
                | SignIn(user: string, password: string, fd: int)
                | SignOut(user: string)

  function Exec(t: Tables, server: Server, k: nat, c: Call): Step {
    match c
    case Regist(user, password) => RegistStep(t, server, k, user, password)
    case SignIn(user, password, fd) => LoginStep(t, server, k, user, password, fd)
    case SignOut(user) => LogoutStep(t, server, k, user)
  }

  /** Row keys fit the `int` variables they are read into. */
  predicate KeysFit(t: Tables) { t.nextId <= INT_LIMIT }

  // ---------------------------------------------------------------- login

  /** The guards on the way to the insert of a takeover. */
  predicate TakesOver(t: Tables, server: Server, k: nat, user: string, password: string) {
    && server(k).Done? && KnownPair(t, user, password)
    && Live(t.logins, user) != []
    && server(k + 2).Done? && server(k + 3).Done? && server(k + 4).Ran()
  }

  /** Exactly when a login keeps the single-terminal property: unless it takes over a
      row whose key does not survive the trip through `int`. */
  lemma LoginSingleIff(t: Tables, server: Server, k: nat, user: string, password: string, fd: int)
    requires Invariant(t)
    ensures SingleTerminal(LoginStep(t, server, k, user, password, fd).t.logins)
            <==> (TakesOver(t, server, k, user, password) ==>
                    TakeoverKey(Live(t.logins, user)[0].id) == Live(t.logins, user)[0].id)
  {
    AnswersLoginedMeaning(t, user, server(k + 1));
    KnownPairMeaning(t, user, password);
    SessionKey(t.logins, user);
    if TakesOver(t, server, k, user, password) {
      TakeoverSingleIff(t, server, k + 3, user, password, fd);
    } else {
      LoginWithoutTakeover(t, server, k, user, password, fd);
    }
  }

  lemma TakeoverSingleIff(t: Tables, server: Server, k: nat, user: string, password: string, fd: int)
    requires Invariant(t) && Live(t.logins, user) != [] && Account(user, password) in t.accounts
    requires server(k).Done? && server(k + 1).Ran()
    ensures var row := Live(t.logins, user)[0];
            SingleTerminal(TakeoverStep(t, server, k, row, user, password, fd).t.logins) <==>
              TakeoverKey(row.id) == row.id
  {
    var row := Live(t.logins, user)[0];
    var key := TakeoverKey(row.id);
    var evicted := UpdateOut(t, key, server(k));
    FirstLive(t.logins, user);
    if key == row.id {
      UpdateKeepsShape(t, key, server(k));
      LiveAfterHit(t.logins, t.nextId, user);
      InsertKeepsSingle(evicted, user, password, fd, server(k + 1));
    } else {
      var i :| 0 <= i < |t.logins| && t.logins[i] == row;
      var rows := InsertLogin(evicted, user, password, fd, server(k + 1)).logins;
      assert rows[i] == row && rows[|t.logins|].user == user && IsLive(rows[|t.logins|]);
    }
  }

  lemma LoginWithoutTakeover(t: Tables, server: Server, k: nat, user: string, password: string, fd: int)
    requires Invariant(t) && !TakesOver(t, server, k, user, password)
    ensures SingleTerminal(LoginStep(t, server, k, user, password, fd).t.logins)
  {
    AnswersLoginedMeaning(t, user, server(k + 1));
    SessionKey(t.logins, user);
    if server(k).Done? && KnownPair(t, user, password) {
      if !AnswersLogined(t, user, server(k + 1)) {
        InsertKeepsSingle(t, user, password, fd, server(k + 2));
      } else if server(k + 2).Done? && Live(t.logins, user) != [] {
        UpdateKeepsShape(t, TakeoverKey(Live(t.logins, user)[0].id), server(k + 3));
      }
    }
  }

  /** One registered user, logged in on terminal 5 with row key `id`. */
  function OneSession(user: string, password: string, id: nat): Tables {
    Tables([Account(user, password)], [Login(id, user, password, 5, LIVE)], id + 1)
  }

  lemma OneSessionShape(user: string, password: string, id: nat)
    ensures var t := OneSession(user, password, id);
            && Invariant(t) && Live(t.logins, user) == [t.logins[0]]
            && CountAccounts(t.accounts, user, Some(password)) == 1
  {
    var t := OneSession(user, password, id);
    assert t.accounts[0] == Account(user, password);
    assert Live(t.logins[..0], user) == [];
    assert CountAccounts(t.accounts[..0], user, Some(password)) == 0;
  }

  /** A key of 2^31 is enough to lose the property: a login that reports success leaves the
      old terminal logged in. */
  lemma LargeKeyKeepsTwoTerminals(user: string, password: string, server: Server)
    requires forall i :: server(i) == Done(0)
    ensures var t := OneSession(user, password, INT_LIMIT);
            var s := LoginStep(t, server, 0, user, password, 6);
            Invariant(t) && s.out == Returned(0, 5, SUCCESS, LoginSuccess) && !SingleTerminal(s.t.logins)
  {
    OneSessionShape(user, password, INT_LIMIT);
    LoginSingleIff(OneSession(user, password, INT_LIMIT), server, 0, user, password, 6);
  }

  /** A logout that reports success leaves such a session in place. */
  lemma LargeKeySurvivesLogout(user: string, password: string, server: Server)
    requires forall i :: server(i) == Done(0)
    ensures var t := OneSession(user, password, INT_LIMIT);
            var s := LogoutStep(t, server, 0, user);
            Invariant(t) && s.out == Returned(0, -1, SUCCESS, LogoutSuccess) && user in Sessions(s.t.logins)
  {
    OneSessionShape(user, password, INT_LIMIT);
    LogoutEndsSessionIff(OneSession(user, password, INT_LIMIT), server, 0, user);
  }

  /** A registered user, logged in nowhere, whose login ends the process: the second select
      is rejected and reads as "logged in". */
  lemma RejectedSelectCrashes(user: string, password: string, fd: int, server: Server)
    requires server(0) == Done(0) && server(1) == Rejected && server(2) == Done(0)
    ensures var t := Tables([Account(user, password)], [], 1);
            Invariant(t) && LoginStep(t, server, 0, user, password, fd).out == Crashed
  {
    var t := Tables([Account(user, password)], [], 1);
    assert t.accounts[0] == Account(user, password);
    AccountKey(t.accounts, user, password);
    assert Sessions(t.logins) == map[];
    LoginCrashIff(t, server, 0, user, password, fd);
  }

  lemma LoginShape(t: Tables, server: Server, k: nat, user: string, password: string, fd: int)
    requires WellFormed(t)
    ensures var t' := LoginStep(t, server, k, user, password, fd).t; WellFormed(t') && Grows(t, t')
  {
    KnownPairMeaning(t, user, password);
    if server(k).Done? && KnownPair(t, user, password) {
      if !AnswersLogined(t, user, server(k + 1)) {
        InsertKeepsShape(t, user, password, fd, server(k + 2));
      } else if server(k + 2).Done? && |Live(t.logins, user)| == 1 {
        TakeoverShape(t, server, k + 3, Live(t.logins, user)[0], user, password, fd);
      }
    }
  }

  lemma TakeoverShape(t: Tables, server: Server, k: nat, row: Login, user: string, password: string, fd: int)
    requires WellFormed(t) && Account(user, password) in t.accounts
    ensures var t' := TakeoverStep(t, server, k, row, user, password, fd).t; WellFormed(t') && Grows(t, t')
  {
    var evicted := UpdateOut(t, TakeoverKey(row.id), server(k));
    UpdateKeepsShape(t, TakeoverKey(row.id), server(k));
    InsertKeepsShape(evicted, user, password, fd, server(k + 1));
    GrowsTransitive(t, evicted, InsertLogin(evicted, user, password, fd, server(k + 1)));
  }

  /** The login manager dies in a login exactly when the second select fails, which
      counts as "already logged in", and the third then finds no session to take over. */
  lemma LoginCrashIff(t: Tables, server: Server, k: nat, user: string, password: string, fd: int)
    requires Invariant(t)
    ensures LoginStep(t, server, k, user, password, fd).out.Crashed? <==>
            && server(k).Done? && user in Accounts(t.accounts) && Accounts(t.accounts)[user] == password
            && !server(k + 1).Done? && server(k + 2).Done? && user !in Sessions(t.logins)
  {
    AnswersLoginedMeaning(t, user, server(k + 1));
    KnownPairMeaning(t, user, password);
    SessionKey(t.logins, user);
  }

  /** The update of a takeover sets out the row it reports and no other. */
  lemma TakeoverReports(t: Tables, server: Server, k: nat, user: string, password: string, fd: int, i: nat)
    requires Invariant(t) && KeysFit(t) && i < |t.logins| && Live(t.logins, user) != []
    ensures var row := Live(t.logins, user)[0];
            var s := TakeoverStep(t, server, k, row, user, password, fd);
            && |s.t.logins| >= |t.logins| && s.out.Returned? && s.out.logoutFd == row.fd
            && (s.t.logins[i] != t.logins[i] ==> t.logins[i] == row && row.user == user)
  {
    var row := Live(t.logins, user)[0];
    FirstLive(t.logins, user);
    if t.logins[i].id == row.id { KeyIsUnique(t, row, i); }
  }

  /** Where no takeover starts, a login only appends. */
  lemma LoginAppends(t: Tables, server: Server, k: nat, user: string, password: string, fd: int)
    ensures var s := LoginStep(t, server, k, user, password, fd);
            || t.logins <= s.t.logins
            || (|Live(t.logins, user)| == 1 &&
                var taken := TakeoverStep(t, server, k + 3, Live(t.logins, user)[0], user, password, fd);
                s.t == taken.t && s.out == taken.out)
  {
  }

  /** No row leaves status 1 in a login unless its fd is returned in `logoutFd`,
      whether or not the login then succeeds. */
  lemma LoginReportsEviction(t: Tables, server: Server, k: nat, user: string, password: string, fd: int, i: nat)
    requires Invariant(t) && KeysFit(t) && i < |t.logins|
    requires IsLive(t.logins[i])
    ensures var s := LoginStep(t, server, k, user, password, fd);
            |s.t.logins| >= |t.logins| &&
            (!IsLive(s.t.logins[i]) ==>
               s.out.Returned? && s.out.logoutFd == t.logins[i].fd && t.logins[i].user == user)
  {
    LoginAppends(t, server, k, user, password, fd);
    if |Live(t.logins, user)| == 1 { TakeoverReports(t, server, k + 3, user, password, fd, i); }
  }

  // ---------------------------------------------------------------- refinement

  /** What a client can observe of the tables. */
  datatype View = View(accounts: map<string, string>, sessions: map<string, int>)

  ghost function ViewOf(t: Tables): View { View(Accounts(t.accounts), Sessions(t.logins)) }

  ghost function Terminal(v: View, user: string): int {
    if user in v.sessions then v.sessions[user] else -1
  }

  /** The transitions a call may make on the two maps, failures included. */
  ghost predicate May(v: View, c: Call, v': View, out: CallOut) {
    match c
    case Regist(user, password) =>
      && out.Returned? && v'.sessions == v.sessions
      && (v'.accounts == v.accounts || (user !in v.accounts && v'.accounts == v.accounts[user := password]))
      && (out.ret == 0 && out.code == SUCCESS ==> user !in v.accounts && v'.accounts == v.accounts[user := password])
      && (out.ret == 0 && out.code != SUCCESS ==> user in v.accounts && out.code == ALREADY_REGIST && v' == v)
    case SignOut(user) =>
      && out.Returned? && out.logoutFd == -1 && v'.accounts == v.accounts
      && (v' == v || v'.sessions == v.sessions - {user})
      && (out.ret == 0 ==> v'.sessions == v.sessions - {user})
    case SignIn(user, password, fd) =>
      && v'.accounts == v.accounts
      && (out.Crashed? ==> v' == v && user !in v.sessions)
      && (out.Returned? && out.ret == 0 ==> v'.sessions == v.sessions[user := fd] && out.logoutFd == Terminal(v, user))
      && (out.Returned? && out.ret != 0 ==>
            || v' == v
            || (v'.sessions == v.sessions - {user} && out.logoutFd == Terminal(v, user))
            || (v'.sessions == v.sessions[user := fd] && out.logoutFd == Terminal(v, user)))
      && (v' != v || (out.Returned? && out.ret == 0) ==> user in v.accounts && v.accounts[user] == password)
  }

  /** The sessions after a takeover: the old one goes first, then the new one comes. */
  lemma TakeoverSessions(t: Tables, server: Server, k: nat, user: string, password: string, fd: int)
    requires Invariant(t) && KeysFit(t) && Live(t.logins, user) != []
    ensures Sessions(TakeoverStep(t, server, k, Live(t.logins, user)[0], user, password, fd).t.logins) ==
            if !server(k).Ran() then Sessions(t.logins)
            else if !server(k).Done? || !server(k + 1).Ran() then Sessions(t.logins) - {user}
            else Sessions(t.logins)[user := fd]
  {
    var row := Live(t.logins, user)[0];
    FirstLive(t.logins, user);
    if server(k).Ran() {
      SessionsAfterHit(t.logins, t.nextId, row);
      InsertSession(UpdateOut(t, row.id, server(k)), user, password, fd, server(k + 1));
      assert (Sessions(t.logins) - {user})[user := fd] == Sessions(t.logins)[user := fd];
    }
  }

  /** The sessions after a login, for every combination of server answers. */
  lemma LoginSessions(t: Tables, server: Server, k: nat, user: string, password: string, fd: int)
    requires Invariant(t) && KeysFit(t)
    ensures var s := LoginStep(t, server, k, user, password, fd);
            s.t.accounts == t.accounts &&
            Sessions(s.t.logins) ==
              if !server(k).Done? || !KnownPair(t, user, password) then Sessions(t.logins)
              else if user !in Sessions(t.logins) then
                if server(k + 1).Done? && server(k + 2).Ran() then Sessions(t.logins)[user := fd]
                else Sessions(t.logins)
              else if !server(k + 2).Done? || !server(k + 3).Ran() then Sessions(t.logins)
              else if !server(k + 3).Done? || !server(k + 4).Ran() then Sessions(t.logins) - {user}
              else Sessions(t.logins)[user := fd]
  {
    AnswersLoginedMeaning(t, user, server(k + 1));
    SessionKey(t.logins, user);
    if server(k).Done? && KnownPair(t, user, password) {
      if !AnswersLogined(t, user, server(k + 1)) {
        InsertSession(t, user, password, fd, server(k + 2));
      } else if server(k + 2).Done? && Live(t.logins, user) != [] {
        TakeoverSessions(t, server, k + 3, user, password, fd);
      }
    }
  }

  /** A login as a transition of the two maps.  A failed one leaves the maps alone, or
      (update done, insert not) removes that user only; it has put the new session in
      place only if the server lost the answer to the insert. */
  lemma LoginRefines(t: Tables, server: Server, k: nat, user: string, password: string, fd: int)
    requires Invariant(t) && KeysFit(t)
    ensures var s := LoginStep(t, server, k, user, password, fd);
            && May(ViewOf(t), SignIn(user, password, fd), ViewOf(s.t), s.out)
            && ((forall i :: !server(i).Lost?) && s.out.Returned? && s.out.ret != 0 ==>
                  Sessions(s.t.logins) == Sessions(t.logins) || Sessions(s.t.logins) == Sessions(t.logins) - {user})
  {
    LoginSessions(t, server, k, user, password, fd);
    AnswersLoginedMeaning(t, user, server(k + 1));
    KnownPairMeaning(t, user, password);
    SessionKey(t.logins, user);
  }

  lemma LogoutSessions(t: Tables, server: Server, k: nat, user: string)
    requires Invariant(t) && KeysFit(t)
    ensures Sessions(LogoutStep(t, server, k, user).t.logins) ==
            if server(k).Done? && server(k + 1).Ran() then Sessions(t.logins) - {user} else Sessions(t.logins)
  {
    if Live(t.logins, user) != [] {
      var row := Live(t.logins, user)[0];
      FirstLive(t.logins, user);
      assert ToInt(row.id) == row.id;
      SessionsAfterHit(t.logins, t.nextId, row);
    } else {
      SessionKey(t.logins, user);
      assert Sessions(t.logins) - {user} == Sessions(t.logins);
    }
  }

  lemma LogoutRefines(t: Tables, server: Server, k: nat, user: string)
    requires Invariant(t) && KeysFit(t)
    ensures var s := LogoutStep(t, server, k, user);
            May(ViewOf(t), SignOut(user), ViewOf(s.t), s.out)
  {
    LogoutSessions(t, server, k, user);
    SessionKey(t.logins, user);
    assert user !in Sessions(t.logins) ==> Sessions(t.logins) - {user} == Sessions(t.logins);
  }

  lemma LogoutShape(t: Tables, server: Server, k: nat, user: string)
    requires WellFormed(t)
    ensures var t' := LogoutStep(t, server, k, user).t;
            WellFormed(t') && Grows(t, t') && (SingleTerminal(t.logins) ==> SingleTerminal(t'.logins))
  {
    if Live(t.logins, user) != [] {
      UpdateKeepsShape(t, ToInt(Live(t.logins, user)[0].id), server(k + 1));
    }
  }

  /** Exactly when a logout that reports success has ended the session: unless the
      session row's key is 2^31 or more, which the update then does not find. */
  lemma LogoutEndsSessionIff(t: Tables, server: Server, k: nat, user: string)
    requires Invariant(t)
    ensures var s := LogoutStep(t, server, k, user);
            s.out.Returned? &&
            (s.out.ret == 0 ==>
               (user !in Sessions(s.t.logins) <==>
                 (Live(t.logins, user) != [] ==> Live(t.logins, user)[0].id < INT_LIMIT)))
  {
    SessionKey(t.logins, user);
    var s := LogoutStep(t, server, k, user);
    SessionKey(s.t.logins, user);
    if Live(t.logins, user) != [] && s.out.ret == 0 {
      var row := Live(t.logins, user)[0];
      FirstLive(t.logins, user);
      if row.id < INT_LIMIT {
        LiveAfterHit(t.logins, t.nextId, user);
      } else {
        var i :| 0 <= i < |t.logins| && t.logins[i] == row;
        assert s.t.logins[i] == row;
        LiveMember(s.t.logins, user, row);
      }
    }
  }

  lemma RegistRefines(t: Tables, server: Server, k: nat, user: string, password: string)
    requires Invariant(t)
    ensures var s := RegistStep(t, server, k, user, password);
            May(ViewOf(t), Regist(user, password), ViewOf(s.t), s.out) && Invariant(s.t) && Grows(t, s.t)
  {
    RegistShape(t, server, k, user, password);
    RegistMay(t, server, k, user, password);
  }

  lemma RegistMay(t: Tables, server: Server, k: nat, user: string, password: string)
    requires UniqueUsers(t.accounts)
    ensures var s := RegistStep(t, server, k, user, password);
            May(ViewOf(t), Regist(user, password), ViewOf(s.t), s.out)
  {
    TakenIff(t, user);
    AccountsAppend(t.accounts, Account(user, password));
  }

  lemma TakenIff(t: Tables, user: string)
    requires UniqueUsers(t.accounts)
    ensures ToInt(CountAccounts(t.accounts, user, None)) != 0 <==> user in Accounts(t.accounts)
  {
    AtMostOneAccount(t.accounts, user, None);
    CountMeaning(t.accounts, user, None);
    AccountKey(t.accounts, user, user);
  }

  /** One call: the invariant is kept, rows only grow, and the two maps move as allowed. */
  lemma ExecSafe(t: Tables, server: Server, k: nat, c: Call)
    requires Invariant(t) && KeysFit(t)
    ensures var s := Exec(t, server, k, c);
            Invariant(s.t) && Grows(t, s.t) && May(ViewOf(t), c, ViewOf(s.t), s.out)
  {
    match c
    case Regist(user, password) => RegistRefines(t, server, k, user, password);
    case SignOut(user) =>
      LogoutRefines(t, server, k, user);
      LogoutShape(t, server, k, user);
    case SignIn(user, password, fd) =>
      LoginSingleIff(t, server, k, user, password, fd);
      if Live(t.logins, user) != [] { FirstLive(t.logins, user); }
      LoginShape(t, server, k, user, password, fd);
      LoginRefines(t, server, k, user, password, fd);
  }

  lemma GrowsTransitive(t: Tables, t': Tables, t'': Tables)
    requires Grows(t, t') && Grows(t', t'')
    ensures Grows(t, t'')
  {
    forall i | 0 <= i < |t.logins|
      ensures t''.logins[i] == t.logins[i] || t''.logins[i] == t.logins[i].(status := OUT)
    {
      assert t'.logins[i] == t.logins[i] || t'.logins[i] == t.logins[i].(status := OUT);
    }
  }

  lemma ExecShape(t: Tables, server: Server, k: nat, c: Call)
    requires WellFormed(t)
    ensures WellFormed(Exec(t, server, k, c).t) && Grows(t, Exec(t, server, k, c).t)
  {
    match c
    case Regist(user, password) => RegistShape(t, server, k, user, password);
    case SignIn(user, password, fd) => LoginShape(t, server, k, user, password, fd);
    case SignOut(user) => LogoutShape(t, server, k, user);
  }

  lemma RegistShape(t: Tables, server: Server, k: nat, user: string, password: string)
    requires WellFormed(t)
    ensures var t' := RegistStep(t, server, k, user, password).t; WellFormed(t') && Grows(t, t')
  {
    AtMostOneAccount(t.accounts, user, None);
    CountMeaning(t.accounts, user, None);
    var t' := RegistStep(t, server, k, user, password).t;
    if t' != t {
      assert forall a :: a in t.accounts ==> a.user != user;
    }
  }

  // ---------------------------------------------------------------- runs

  /** One call of a service as a function of the tables and the statements issued so far. */
  type Service = (Tables, nat, Call) -> Step

  function Manager(server: Server): Service {
    (t: Tables, k: nat, c: Call) => Exec(t, server, k, c)
  }

  /** The tables after a run; a crashed process is restarted on the same tables. */
  function After(service: Service, t: Tables, k: nat, calls: seq<Call>): Tables
    decreases |calls|
  {
    if calls == [] then t
    else
      var s := service(t, k, calls[0]);
      After(service, s.t, k + s.used, calls[1..])
  }

  ghost predicate StepGrows(t: Tables, s: Step) { WellFormed(t) ==> WellFormed(s.t) && Grows(t, s.t) }

  ghost predicate StepKeeps(t: Tables, s: Step) { Invariant(t) && KeysFit(t) ==> Invariant(s.t) }

  lemma {:induction false} RunGrows(service: Service, t: Tables, k: nat, calls: seq<Call>)
    requires WellFormed(t)
    requires forall t, k, c :: StepGrows(t, service(t, k, c))
    ensures WellFormed(After(service, t, k, calls)) && Grows(t, After(service, t, k, calls))
    decreases |calls|
  {
    if calls != [] {
      var s := service(t, k, calls[0]);
      assert StepGrows(t, s);
      RunGrows(service, s.t, k + s.used, calls[1..]);
      GrowsTransitive(t, s.t, After(service, t, k, calls));
    }
  }

  /** Every table a run passes through is good. */
  ghost predicate Along(service: Service, good: Tables -> bool, t: Tables, k: nat, calls: seq<Call>)
    decreases |calls|
  {
    good(t) &&
    (calls == [] || var s := service(t, k, calls[0]); Along(service, good, s.t, k + s.used, calls[1..]))
  }

  lemma {:induction false} RunAlong(service: Service, good: Tables -> bool, t: Tables, k: nat, calls: seq<Call>)
    requires Invariant(t) && KeysFit(After(service, t, k, calls))
    requires forall t :: good(t) <==> Invariant(t) && KeysFit(t)
    requires forall t, k, c :: StepGrows(t, service(t, k, c))
    requires forall t, k, c :: StepKeeps(t, service(t, k, c))
    ensures Along(service, good, t, k, calls)
    decreases |calls|
  {
    RunGrows(service, t, k, calls);
    if calls != [] {
      var s := service(t, k, calls[0]);
      assert StepKeeps(t, s);
      RunAlong(service, good, s.t, k + s.used, calls[1..]);
    }
  }

  lemma {:induction false} AlongEnds(service: Service, good: Tables -> bool, t: Tables, k: nat, calls: seq<Call>)
    requires Along(service, good, t, k, calls)
    ensures good(After(service, t, k, calls))
    decreases |calls|
  {
    if calls != [] {
      var s := service(t, k, calls[0]);
      AlongEnds(service, good, s.t, k + s.used, calls[1..]);
    }
  }

  lemma ManagerGrows(server: Server)
    ensures forall t, k, c :: StepGrows(t, Manager(server)(t, k, c))
  {
    forall t, k, c ensures StepGrows(t, Manager(server)(t, k, c)) {
      if WellFormed(t) { ExecShape(t, server, k, c); }
    }
  }

  lemma ManagerKeeps(server: Server)
    ensures forall t, k, c :: StepKeeps(t, Manager(server)(t, k, c))
  {
    forall t, k, c ensures StepKeeps(t, Manager(server)(t, k, c)) {
      if Invariant(t) && KeysFit(t) { ExecSafe(t, server, k, c); }
    }
  }

  /** Single terminal: over every run of register, login and logout, with any pattern of
      failed and lost statements and of crashes, no user ever has two live sessions, user
      names stay unique, every session belongs to a registered pair, rows are never removed
      and a status only moves from 1 to 2, as long as the keys handed out stay below 2^31. */
  lemma SingleTerminalAlways(server: Server, t: Tables, k: nat, calls: seq<Call>)
    requires Invariant(t)
    requires KeysFit(After(Manager(server), t, k, calls))
    ensures var t' := After(Manager(server), t, k, calls); Invariant(t') && Grows(t, t')
  {
    ManagerGrows(server);
    ManagerKeeps(server);
    RunGrows(Manager(server), t, k, calls);
    var good := (t: Tables) => Invariant(t) && KeysFit(t);
    RunAlong(Manager(server), good, t, k, calls);
    AlongEnds(Manager(server), good, t, k, calls);
  }

  /** What a call does when every statement succeeds, on maps only. */
  ghost function Ideal(v: View, c: Call): View {
    match c
    case Regist(user, password) => if user in v.accounts then v else v.(accounts := v.accounts[user := password])
    case SignOut(user) => v.(sessions := v.sessions - {user})
    case SignIn(user, password, fd) =>
      if user in v.accounts && v.accounts[user] == password then v.(sessions := v.sessions[user := fd]) else v
  }

  /** A run of calls on values of any kind. */
  ghost function Calls<V>(step: (V, Call) -> V, v: V, calls: seq<Call>): V
    decreases |calls|
  {
    if calls == [] then v else Calls(step, step(v, calls[0]), calls[1..])
  }

  ghost function IdealRun(v: View, calls: seq<Call>): View { Calls((v, c) => Ideal(v, c), v, calls) }

  /** If every good step moves the view as the ideal step does, so does every run. */
  lemma {:induction false} RunSimulates<V(!new)>(service: Service, good: Tables -> bool, view: Tables -> V,
                                                 step: (V, Call) -> V, t: Tables, k: nat, calls: seq<Call>)
    requires Along(service, good, t, k, calls)
    requires forall t, k, c :: good(t) ==> view(service(t, k, c).t) == step(view(t), c)
    ensures view(After(service, t, k, calls)) == Calls(step, view(t), calls)
    decreases |calls|
  {
    if calls != [] {
      var s := service(t, k, calls[0]);
      RunSimulates(service, good, view, step, s.t, k + s.used, calls[1..]);
    }
  }

  /** Without database failures the tables implement two maps: who is registered with
      which password, and on which terminal each user is logged in. */
  lemma RunRefinesMaps(server: Server, t: Tables, k: nat, calls: seq<Call>)
    requires Invariant(t) && KeysFit(After(Manager(server), t, k, calls))
    requires forall i :: server(i).Done?
    ensures ViewOf(After(Manager(server), t, k, calls)) == IdealRun(ViewOf(t), calls)
  {
    var good := (t: Tables) => Invariant(t) && KeysFit(t);
    var view := (t: Tables) => ViewOf(t);
    ManagerGrows(server);
    ManagerKeeps(server);
    RunAlong(Manager(server), good, t, k, calls);
    ManagerIdeal(server);
    RunSimulates(Manager(server), good, view, (v, c) => Ideal(v, c), t, k, calls);
  }

  lemma ManagerIdeal(server: Server)
    requires forall i :: server(i).Done?
    ensures forall t, k, c :: Invariant(t) && KeysFit(t) ==> ViewOf(Manager(server)(t, k, c).t) == Ideal(ViewOf(t), c)
  {
    forall t, k, c | Invariant(t) && KeysFit(t) ensures ViewOf(Manager(server)(t, k, c).t) == Ideal(ViewOf(t), c) {
      ExecIdeal(t, server, k, c);
    }
  }

  lemma ExecIdeal(t: Tables, server: Server, k: nat, c: Call)
    requires Invariant(t) && KeysFit(t) && forall i :: server(i).Done?
    ensures ViewOf(Exec(t, server, k, c).t) == Ideal(ViewOf(t), c)
  {
    ExecSafe(t, server, k, c);
    match c
    case Regist(user, password) =>
      AtMostOneAccount(t.accounts, user, None);
    case SignOut(user) =>
    case SignIn(user, password, fd) =>
      KnownPairMeaning(t, user, password);
      AnswersLoginedMeaning(t, user, server(k + 1));
      LoginCrashIff(t, server, k, user, password, fd);
  }
}

/** Which terminal reads a notice.  The receiver knows terminals by their fd only, and the
    system hands out an fd again once it is closed, so a session row can outlive its
    terminal.  Connections are numbered here in the order in which they were accepted. */
module Terminals {
  import opened Basics
  import opened LoginTables
  import opened LoginSpec
  import opened LoginRuns
  import opened Messages
  import opened Evictions

  /** `owners[i]` is the connection on which the login of row i was asked for. */
  datatype World = World(t: Tables, k: nat, conns: map<int, nat>, next: nat, owners: seq<nat>)

  datatype Event = Connect(fd: int) | Close(fd: int) | Ask(q: Inquiry)

  predicate Enabled(w: World, e: Event) {
    match e
    case Connect(fd) => fd !in w.conns
    case Close(fd) => fd in w.conns
    case Ask(q) => q.fd in w.conns
  }

  function Step(system: System, w: World, e: Event): World
    requires Enabled(w, e)
  {
    match e
    case Connect(fd) => w.(conns := w.conns[fd := w.next], next := w.next + 1)
    case Close(fd) => w.(conns := w.conns - {fd})
    case Ask(q) =>
      var trip := system(w.t, w.k, q);
      w.(t := trip.t, k := w.k + trip.used, owners := w.owners + Repeat(w.conns[q.fd], |trip.t.logins| - |w.t.logins|))
  }

  function Repeat(c: nat, n: int): seq<nat> { if n <= 0 then [] else seq(n, i => c) }

  /** The connection that reads what is written to fd. */
  function Reader(w: World, fd: int): Option<nat> { if fd in w.conns then Some(w.conns[fd]) else None }

  /** The terminal of row i is still there under its fd. */
  predicate Connected(w: World, i: nat)
    requires i < |w.t.logins| == |w.owners|
  {
    Reader(w, w.t.logins[i].fd) == Some(w.owners[i])
  }

  /** Every connection has its own number, and every row an owner. */
  ghost predicate Numbered(w: World) {
    && |w.owners| == |w.t.logins|
    && (forall fd :: fd in w.conns ==> w.conns[fd] < w.next)
    && (forall fd, g :: fd in w.conns && g in w.conns && w.conns[fd] == w.conns[g] ==> fd == g)
    && (forall i :: 0 <= i < |w.owners| ==> w.owners[i] < w.next)
  }

  /** Rows stay where they are and keep their fd. */
  ghost predicate KeepsRows(t: Tables, t': Tables) {
    |t.logins| <= |t'.logins| && forall i :: 0 <= i < |t.logins| ==> t'.logins[i].fd == t.logins[i].fd
  }

  /** What is needed of the login manager: rows are only appended. */
  ghost predicate Appends(system: System) {
    forall t, k, q :: WellFormed(t) ==> KeepsRows(t, system(t, k, q).t) && WellFormed(system(t, k, q).t)
  }

  ghost predicate IsRun(system: System, w: World, es: seq<Event>)
    decreases |es|
  {
    es == [] || (Enabled(w, es[0]) && IsRun(system, Step(system, w, es[0]), es[1..]))
  }

  ghost function After(system: System, w: World, es: seq<Event>): World
    requires IsRun(system, w, es)
    decreases |es|
  {
    if es == [] then w else After(system, Step(system, w, es[0]), es[1..])
  }

  lemma StepNumbered(system: System, w: World, e: Event)
    requires Appends(system) && Numbered(w) && WellFormed(w.t) && Enabled(w, e)
    ensures var w' := Step(system, w, e);
            Numbered(w') && WellFormed(w'.t) && KeepsRows(w.t, w'.t) && w.owners <= w'.owners && w.next <= w'.next
  {
  }

  /** One event ends a connection exactly when it closes its fd. */
  lemma StepConnected(system: System, w: World, e: Event, i: nat)
    requires Appends(system) && Numbered(w) && WellFormed(w.t) && Enabled(w, e) && i < |w.t.logins|
    ensures var w' := Step(system, w, e);
            i < |w'.t.logins| == |w'.owners| && (Connected(w', i) <==> Connected(w, i) && e != Close(w.t.logins[i].fd))
  {
    StepNumbered(system, w, e);
  }

  /** A terminal is connected after a run exactly when it was before and its fd was not closed
      in between; an fd that is used again belongs to another terminal. */
  lemma {:induction false} RunConnectedIff(system: System, w: World, es: seq<Event>, i: nat)
    requires Appends(system) && Numbered(w) && WellFormed(w.t) && IsRun(system, w, es) && i < |w.t.logins|
    ensures var w' := After(system, w, es);
            && Numbered(w') && WellFormed(w'.t) && i < |w'.t.logins|
            && w'.t.logins[i].fd == w.t.logins[i].fd && w'.owners[i] == w.owners[i]
            && (Connected(w', i) <==> Connected(w, i) && Close(w.t.logins[i].fd) !in es)
    decreases |es|
  {
    if es != [] {
      var e := es[0];
      StepNumbered(system, w, e);
      StepConnected(system, w, e, i);
      RunConnectedIff(system, Step(system, w, e), es[1..], i);
      assert es == [e] + es[1..];
    }
  }

  // ---------------------------------------------------------------- the login manager

  lemma AttemptAppends(t: Tables, server: Server, k: nat, q: Inquiry)
    requires WellFormed(t)
    ensures var t' := Attempt(t, server, k, q).t; WellFormed(t') && KeepsRows(t, t')
  {
    ServeAppends(t, ServerFor(server, k, q), k, q, LinksFor(q));
  }

  lemma ServeAppends(t: Tables, server: Server, k: nat, q: Inquiry, links: Links)
    requires WellFormed(t)
    ensures var t' := Serve(t, server, k, q.fd, q.m, links).t; WellFormed(t') && KeepsRows(t, t')
  {
    var r := ClientCall(q.m, q.fd);
    if !links.there || !r.Good? {
      ServeRefuses(t, server, k, q.fd, q.m, links);
    } else {
      ServeRunsCall(t, server, k, q.fd, q.m, links);
      ExecShape(t, server, k, r.call);
    }
  }

  lemma SystemAppends(server: Server)
    ensures Appends(LoginSystem(server))
  {
    forall t, k, q | WellFormed(t)
      ensures KeepsRows(t, LoginSystem(server)(t, k, q).t) && WellFormed(LoginSystem(server)(t, k, q).t)
    {
      AttemptAppends(t, server, k, q);
    }
  }

  /** A row that a request appends carries the fd its login ran with. */
  lemma AppendedRow(t: Tables, server: Server, k: nat, q: Inquiry, i: nat)
    requires WellFormed(t) && |t.logins| <= i < |Attempt(t, server, k, q).t.logins|
    ensures ClientCall(q.m, q.fd).Good? && ClientCall(q.m, q.fd).call.SignIn?
    ensures Attempt(t, server, k, q).t.logins[i].fd == ClientCall(q.m, q.fd).call.fd
  {
    ServedRow(t, ServerFor(server, k, q), k, q, LinksFor(q), i);
  }

  lemma ServedRow(t: Tables, server: Server, k: nat, q: Inquiry, links: Links, i: nat)
    requires |t.logins| <= i < |Serve(t, server, k, q.fd, q.m, links).t.logins|
    ensures ClientCall(q.m, q.fd).Good? && ClientCall(q.m, q.fd).call.SignIn?
    ensures Serve(t, server, k, q.fd, q.m, links).t.logins[i].fd == ClientCall(q.m, q.fd).call.fd
  {
    var r := ClientCall(q.m, q.fd);
    if !links.there || !r.Good? {
      ServeRefuses(t, server, k, q.fd, q.m, links);
      assert false;
    }
    ServeRunsCall(t, server, k, q.fd, q.m, links);
    CallAppends(t, server, k, r.call, i);
  }

  lemma CallAppends(t: Tables, server: Server, k: nat, c: Call, i: nat)
    requires |t.logins| <= i < |Exec(t, server, k, c).t.logins|
    ensures c.SignIn? && Exec(t, server, k, c).t.logins[i].fd == c.fd
  {
  }

  /** The message brings no fd of its own, or the one it comes from. */
  predicate OwnFd(q: Inquiry) {
    Get(q.m, ExtendInfo) == None || Get(Get(q.m, ExtendInfo).value, ClientFd) == Some(Num(q.fd))
  }

  /** A login opens its session for the terminal that asked if and only if its message does
      not name another fd. */
  lemma LoginConnectsIff(server: Server, w: World, q: Inquiry, i: nat)
    requires Numbered(w) && WellFormed(w.t) && Enabled(w, Ask(q))
    requires |w.t.logins| <= i < |Attempt(w.t, server, w.k, q).t.logins|
    ensures var w' := Step(LoginSystem(server), w, Ask(q));
            i < |w'.t.logins| == |w'.owners| && w'.owners[i] == w.conns[q.fd] && (Connected(w', i) <==> OwnFd(q))
    ensures OwnFd(q) ==> Attempt(w.t, server, w.k, q).t.logins[i].fd == q.fd
  {
    AttemptAppends(w.t, server, w.k, q);
    AppendedRow(w.t, server, w.k, q, i);
    CallFdIff(q.m, q.fd);
  }

  /** Let a login open row i, any events follow, and then another login evict it with its
      notice written.  The terminal that reads the notice is the one that logged in if and
      only if its message did not name another fd, and its fd was not closed in between;
      otherwise nobody reads it, or a stranger. */
  lemma {:induction false} NoticeReachesTerminalIff(server: Server, w: World, login: Inquiry, es: seq<Event>,
                                                    q: Inquiry, i: nat)
    requires Numbered(w) && WellFormed(w.t) && Enabled(w, Ask(login))
    requires |w.t.logins| <= i < |Attempt(w.t, server, w.k, login).t.logins|
    requires IsRun(LoginSystem(server), Step(LoginSystem(server), w, Ask(login)), es)
    requires var w2 := After(LoginSystem(server), Step(LoginSystem(server), w, Ask(login)), es);
             && i < |w2.t.logins|
             && ToldFirst(Attempt(w2.t, server, w2.k, q).sent, w2.t.logins[i].fd, q.fd)
    ensures var w2 := After(LoginSystem(server), Step(LoginSystem(server), w, Ask(login)), es);
            Reader(w2, Attempt(w2.t, server, w2.k, q).sent[0].0) == Some(w.conns[login.fd]) <==>
            OwnFd(login) && Close(login.fd) !in es
  {
    var system := LoginSystem(server);
    var w1 := Step(system, w, Ask(login));
    SystemAppends(server);
    StepNumbered(system, w, Ask(login));
    LoginConnectsIff(server, w, login, i);
    RunConnectedIff(system, w1, es, i);
  }

  // ---------------------------------------------------------------- a notice that goes astray

  /** One registered user, and a terminal connected on fd 5. */
  function Fresh(user: string, password: string): World {
    World(Tables([Account(user, password)], [], 1), 0, map[5 := 0], 1, [])
  }

  function AskLogin(user: string, password: string, fd: int): Inquiry {
    Inquiry(fd, LoginMessage(user, password), UP, None)
  }

  lemma FirstLogin(user: string, password: string, server: Server)
    requires forall i :: server(i) == Done(0)
    ensures var w := Fresh(user, password);
            && Numbered(w) && WellFormed(w.t)
            && Attempt(w.t, server, 0, AskLogin(user, password, 5)).t == OneSession(user, password, 1)
  {
    var t := Fresh(user, password).t;
    assert t.accounts[0] == Account(user, password);
    assert CountAccounts(t.accounts[..0], user, Some(password)) == 0;
    assert Live(t.logins, user) == [];
    LoginMessageCall(user, password, 5);
    ServeRunsCall(t, server, 0, 5, LoginMessage(user, password), UP);
    assert InsertLogin(t, user, password, 5, Done(0)).logins == OneSession(user, password, 1).logins;
  }

  lemma SecondLogin(user: string, password: string, server: Server, k: nat)
    requires forall i :: server(i) == Done(0)
    ensures ToldFirst(Attempt(OneSession(user, password, 1), server, k, AskLogin(user, password, 6)).sent, 5, 6)
  {
    var t, m := OneSession(user, password, 1), LoginMessage(user, password);
    OneSessionEvicted(user, password, server, k, 6);
    LoginMessageCall(user, password, 6);
    ServeRunsCall(t, server, k, 6, m, UP);
    EvictionToldIff(t, server, k, 6, m, UP, 0);
  }

  /** The terminal on fd 5 logs in and closes, another is accepted on fd 5, and a third logs
      in: "logout" goes to the second, which never logged in. */
  lemma StrangerReadsNotice(user: string, password: string, server: Server)
    requires forall i :: server(i) == Done(0)
    ensures var system := LoginSystem(server);
            var w1 := Step(system, Fresh(user, password), Ask(AskLogin(user, password, 5)));
            var es := [Close(5), Connect(5), Connect(6)];
            IsRun(system, w1, es) &&
            var w2 := After(system, w1, es);
            var sent := Attempt(w2.t, server, w2.k, AskLogin(user, password, 6)).sent;
            ToldFirst(sent, 5, 6) && w2.owners == [0] && Reader(w2, sent[0].0) == Some(1)
  {
    var system := LoginSystem(server);
    FirstLogin(user, password, server);
    var w1 := Step(system, Fresh(user, password), Ask(AskLogin(user, password, 5)));
    var es := [Close(5), Connect(5), Connect(6)];
    assert w1.conns == map[5 := 0] && w1.next == 1 && w1.owners == [0];
    var w' := Step(system, Step(system, Step(system, w1, Close(5)), Connect(5)), Connect(6));
    assert es[1..] == [Connect(5), Connect(6)] && es[1..][1..] == [Connect(6)] && es[1..][1..][1..] == [];
    ThreeSteps(system, w1, es);
    assert w'.conns == map[5 := 1, 6 := 2];
    SecondLogin(user, password, server, w'.k);
  }

  lemma ThreeSteps(system: System, w: World, es: seq<Event>)
    requires |es| == 3 && Enabled(w, es[0]) && Enabled(Step(system, w, es[0]), es[1])
    requires Enabled(Step(system, Step(system, w, es[0]), es[1]), es[2])
    ensures IsRun(system, w, es)
    ensures After(system, w, es) == Step(system, Step(system, Step(system, w, es[0]), es[1]), es[2])
  {
    var w1 := Step(system, w, es[0]);
    var w2 := Step(system, w1, es[1]);
    var w3 := Step(system, w2, es[2]);
    assert IsRun(system, w3, es[1..][1..][1..]) && After(system, w3, es[1..][1..][1..]) == w3;
    assert IsRun(system, w2, es[1..][1..]) && After(system, w2, es[1..][1..]) == w3;
    assert IsRun(system, w1, es[1..]) && After(system, w1, es[1..]) == w3;
  }
}

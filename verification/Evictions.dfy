/** Who is told when a login ends another terminal's session: for one request, for one that
    is cut off, and over every run of requests. */
module Evictions {
  import opened Basics
  import opened LoginTables
  import opened LoginSpec
  import opened LoginRuns
  import opened Messages

  /** A row that a request takes out of status 1. */
  predicate Evicts(t: Tables, t': Tables, i: nat) {
    i < |t.logins| && i < |t'.logins| && IsLive(t.logins[i]) && !IsLive(t'.logins[i])
  }

  /** "logout" is written to fd before anything else, and then at most the answer. */
  predicate ToldFirst(sent: seq<(int, Notice)>, fd: int, clientFd: int) {
    sent != [] && sent[0] == (fd, LogoutOrder) && (|sent| > 1 ==> sent[1].0 == clientFd)
  }

  /** The message leaves the reply's `logoutFd` to the login manager. */
  predicate LeavesFd(m: Json, fd: int) {
    Get(m, ExtendInfo).Some? ==>
      var own := Get(m, ExtendInfo).value;
      own.Obj? && (Get(own, LogoutFd) == None || Get(own, LogoutFd) == Some(Num(fd)))
  }

  lemma LeavesFdMeaning(m: Json, clientFd: int, fd: int)
    ensures LeavesFd(m, fd) <==> NoticeFd(ExtOf(m, clientFd), fd) == Some(fd)
  {
    assert Find([(ClientFd, Num(clientFd))], LogoutFd) == Find([(ClientFd, Num(clientFd))][1..], LogoutFd);
  }

  lemma VerdictIsNoOrder(t: Tables, server: Server, k: nat, c: Call, op: int)
    ensures var out := Exec(t, server, k, c).out; out.Returned? ==> Verdict(out, op) != LogoutOrder
  {
  }

  lemma LogoutTouchesOwnRow(t: Tables, server: Server, k: nat, user: string, i: nat)
    requires Invariant(t) && KeysFit(t) && i < |t.logins| && IsLive(t.logins[i])
    ensures var t' := LogoutStep(t, server, k, user).t;
            i < |t'.logins| && (!IsLive(t'.logins[i]) ==> t.logins[i].user == user)
  {
    var t' := LogoutStep(t, server, k, user).t;
    if !IsLive(t'.logins[i]) {
      FirstLive(t.logins, user);
      KeyIsUnique(t, Live(t.logins, user)[0], i);
    }
  }

  /** A row leaves status 1 in its user's own logout, or its fd is the call's `logoutFd`. */
  lemma EvictionIsReported(t: Tables, server: Server, k: nat, c: Call, i: nat)
    requires Invariant(t) && KeysFit(t) && i < |t.logins| && IsLive(t.logins[i])
    ensures var s := Exec(t, server, k, c);
            i < |s.t.logins| &&
            (!IsLive(s.t.logins[i]) ==>
               c == SignOut(t.logins[i].user) || (s.out.Returned? && s.out.logoutFd == t.logins[i].fd))
  {
    match c {
      case Regist(_, _) =>
      case SignOut(user) => LogoutTouchesOwnRow(t, server, k, user, i);
      case SignIn(user, password, fd) => LoginReportsEviction(t, server, k, user, password, fd, i);
    }
  }

  // ---------------------------------------------------------------- one request

  /** A terminal that loses its session to a login is told if and only if the reply comes
      back, the write to it succeeds, its fd is positive and the message has not planted
      another `logoutFd`. */
  lemma EvictionToldIff(t: Tables, server: Server, k: nat, clientFd: int, m: Json, links: Links, i: nat)
    requires Invariant(t) && KeysFit(t)
    requires Evicts(t, Serve(t, server, k, clientFd, m, links).t, i)
    requires ClientCall(m, clientFd) != Good(SignOut(t.logins[i].user))
    ensures ToldFirst(Serve(t, server, k, clientFd, m, links).sent, t.logins[i].fd, clientFd) <==>
            links.back && links.orderOk && t.logins[i].fd > 0 && LeavesFd(m, t.logins[i].fd)
  {
    if !links.there || !ClientCall(m, clientFd).Good? {
      ServeRefuses(t, server, k, clientFd, m, links);
      assert false;
    }
    var c, fd := ClientCall(m, clientFd).call, t.logins[i].fd;
    ServeRunsCall(t, server, k, clientFd, m, links);
    EvictionIsReported(t, server, k, c, i);
    VerdictIsNoOrder(t, server, k, c, OpOf(m).value.n);
    LeavesFdMeaning(m, clientFd, fd);
  }

  // ---------------------------------------------------------------- requests that are cut off

  /** The answers of a server to a process that is killed after its n-th statement. */
  function Until(server: Server, n: nat): Server { (i: nat) => if i < n then server(i) else Rejected }

  lemma CutLoginEvictsIff(t: Tables, server: Server, k: nat, user: string, password: string, fd: int, n: nat, i: nat)
    requires Invariant(t) && KeysFit(t) && i < |t.logins| && IsLive(t.logins[i])
    ensures Evicts(t, LoginStep(t, Until(server, k + n), k, user, password, fd).t, i) <==>
            && n >= 4 && t.logins[i].user == user && KnownPair(t, user, password)
            && server(k).Done? && server(k + 2).Done? && server(k + 3).Ran()
  {
    var server' := Until(server, k + n);
    AnswersLoginedMeaning(t, user, server'(k + 1));
    SessionKey(t.logins, user);
    LiveMember(t.logins, user, t.logins[i]);
    LoginReportsEviction(t, server', k, user, password, fd, i);
    if t.logins[i].user == user {
      assert Live(t.logins, user) == [t.logins[i]];
      TakeoverEvicts(t, server', k + 3, user, password, fd, i);
    }
  }

  lemma TakeoverEvicts(t: Tables, server: Server, k: nat, user: string, password: string, fd: int, i: nat)
    requires Invariant(t) && KeysFit(t) && i < |t.logins| && IsLive(t.logins[i])
             && Live(t.logins, user) == [t.logins[i]]
    ensures Evicts(t, TakeoverStep(t, server, k, t.logins[i], user, password, fd).t, i) <==> server(k).Ran()
  {
    assert TakeoverKey(t.logins[i].id) == t.logins[i].id;
  }

  // ---------------------------------------------------------------- runs of requests

  /** A request with what becomes of it: its socket calls, and the statement after which the
      login manager is killed, if it is. */
  datatype Inquiry = Inquiry(fd: int, m: Json, links: Links, killedAfter: Option<nat>)

  function ServerFor(server: Server, k: nat, q: Inquiry): Server {
    if q.killedAfter.Some? then Until(server, k + q.killedAfter.value) else server
  }

  function LinksFor(q: Inquiry): Links { if q.killedAfter.Some? then q.links.(back := false) else q.links }

  function Spent(used: nat, q: Inquiry): nat {
    if q.killedAfter.Some? && q.killedAfter.value < used then q.killedAfter.value else used
  }

  function Attempt(t: Tables, server: Server, k: nat, q: Inquiry): Trip {
    var trip := Serve(t, ServerFor(server, k, q), k, q.fd, q.m, LinksFor(q));
    Trip(trip.t, Spent(trip.used, q), trip.sent)
  }

  /** A login killed after n statements has ended a session if and only if the update of its
      takeover was among them and ran; and nobody is told anything. */
  lemma KilledLoginEvictsIff(t: Tables, server: Server, k: nat, q: Inquiry, n: nat, i: nat)
    requires Invariant(t) && KeysFit(t) && i < |t.logins| && IsLive(t.logins[i])
    requires q.killedAfter == Some(n) && q.links.there
    requires ClientCall(q.m, q.fd).Good? && ClientCall(q.m, q.fd).call.SignIn?
    ensures var c := ClientCall(q.m, q.fd).call;
            Evicts(t, Attempt(t, server, k, q).t, i) <==>
              && n >= 4 && t.logins[i].user == c.user && KnownPair(t, c.user, c.password)
              && server(k).Done? && server(k + 2).Done? && server(k + 3).Ran()
    ensures Attempt(t, server, k, q).sent == []
  {
    var c := ClientCall(q.m, q.fd).call;
    KilledTrip(t, server, k, q, n);
    CutLoginEvictsIff(t, server, k, c.user, c.password, c.fd, n, i);
  }

  /** A killed request does what its first statements do, and no reply is sent. */
  lemma KilledTrip(t: Tables, server: Server, k: nat, q: Inquiry, n: nat)
    requires q.killedAfter == Some(n) && q.links.there && ClientCall(q.m, q.fd).Good?
    ensures var trip := Attempt(t, server, k, q);
            trip.t == Exec(t, Until(server, k + n), k, ClientCall(q.m, q.fd).call).t && trip.sent == []
  {
    ServeSilently(t, ServerFor(server, k, q), k, q.fd, q.m, LinksFor(q));
  }

  lemma ServeSilently(t: Tables, server: Server, k: nat, clientFd: int, m: Json, links: Links)
    requires links.there && !links.back && ClientCall(m, clientFd).Good?
    ensures var trip := Serve(t, server, k, clientFd, m, links);
            trip.t == Exec(t, server, k, ClientCall(m, clientFd).call).t && trip.sent == []
  {
    ServeRunsCall(t, server, k, clientFd, m, links);
  }

  predicate Arrives(q: Inquiry) { q.killedAfter.None? && q.links.back && q.links.orderOk }

  /** Every row this request took out of status 1 belongs to the user who asked to log out,
      or its terminal is told, exactly when the reply and the write get through, to a fd that
      the message has not overridden. */
  ghost predicate NoSilentEviction(t: Tables, q: Inquiry, trip: Trip) {
    forall i: nat :: Evicts(t, trip.t, i) ==>
      || ClientCall(q.m, q.fd) == Good(SignOut(t.logins[i].user))
      || (ToldFirst(trip.sent, t.logins[i].fd, q.fd) <==>
          Arrives(q) && t.logins[i].fd > 0 && LeavesFd(q.m, t.logins[i].fd))
  }

  lemma ServeKeeps(t: Tables, server: Server, k: nat, q: Inquiry, links: Links)
    requires Invariant(t) && KeysFit(t)
    ensures var t' := Serve(t, server, k, q.fd, q.m, links).t; Invariant(t') && Grows(t, t')
  {
    var r := ClientCall(q.m, q.fd);
    if !links.there || !r.Good? {
      ServeRefuses(t, server, k, q.fd, q.m, links);
    } else {
      ServeRunsCall(t, server, k, q.fd, q.m, links);
      ExecSafe(t, server, k, r.call);
    }
  }

  lemma AttemptNotifies(t: Tables, server: Server, k: nat, q: Inquiry)
    requires Invariant(t) && KeysFit(t)
    ensures NoSilentEviction(t, q, Attempt(t, server, k, q))
  {
    var trip := Attempt(t, server, k, q);
    forall i: nat | Evicts(t, trip.t, i) && ClientCall(q.m, q.fd) != Good(SignOut(t.logins[i].user))
      ensures ToldFirst(trip.sent, t.logins[i].fd, q.fd) <==>
              Arrives(q) && t.logins[i].fd > 0 && LeavesFd(q.m, t.logins[i].fd)
    {
      EvictionToldIff(t, ServerFor(server, k, q), k, q.fd, q.m, LinksFor(q), i);
    }
  }

  type System = (Tables, nat, Inquiry) -> Trip

  function LoginSystem(server: Server): System { (t: Tables, k: nat, q: Inquiry) => Attempt(t, server, k, q) }

  /** The trips of a run of requests, each with the tables it started from. */
  function Trips(system: System, t: Tables, k: nat, requests: seq<Inquiry>): (r: seq<(Tables, Trip)>)
    ensures |r| == |requests|
    decreases |requests|
  {
    if requests == [] then []
    else
      var trip := system(t, k, requests[0]);
      [(t, trip)] + Trips(system, trip.t, k + trip.used, requests[1..])
  }

  /** What one request must keep and do. */
  ghost predicate SafeTrip(t: Tables, q: Inquiry, trip: Trip) {
    Invariant(trip.t) && Grows(t, trip.t) && NoSilentEviction(t, q, trip)
  }

  /** If every request starting from a good table is safe and leaves a good table, so is every
      request of a run. */
  lemma {:induction false} RunOfSafeTrips(system: System, good: Tables -> bool, fits: Tables -> bool,
                                          safe: (Tables, Inquiry, Trip) -> bool,
                                          t: Tables, k: nat, requests: seq<Inquiry>, j: nat)
    requires good(t) && j < |requests|
    requires forall i :: 0 <= i < |requests| ==> fits(Trips(system, t, k, requests)[i].0)
    requires forall t, k, q :: good(t) && fits(t) ==> safe(t, q, system(t, k, q)) && good(system(t, k, q).t)
    ensures var step := Trips(system, t, k, requests)[j]; good(step.0) && safe(step.0, requests[j], step.1)
    decreases |requests|
  {
    var trip := system(t, k, requests[0]);
    var rest := Trips(system, trip.t, k + trip.used, requests[1..]);
    assert fits(Trips(system, t, k, requests)[0].0);
    if j > 0 {
      forall i | 0 <= i < |rest| ensures fits(rest[i].0) {
        assert Trips(system, t, k, requests)[i + 1] == rest[i];
      }
      RunOfSafeTrips(system, good, fits, safe, trip.t, k + trip.used, requests[1..], j - 1);
    }
  }

  /** Over every run of requests, whatever the messages hold, the database answers, whichever
      socket calls fail and after whichever statements the login manager is killed: one
      terminal per user, and a terminal logged out by another login is told before that login
      is answered, exactly when the reply reached the receiver, the write to the terminal
      succeeded and the message had not planted another fd. */
  lemma EveryRunNotifies(server: Server, t: Tables, k: nat, requests: seq<Inquiry>, j: nat)
    requires Invariant(t) && j < |requests|
    requires forall i :: 0 <= i < |requests| ==> KeysFit(Trips(LoginSystem(server), t, k, requests)[i].0)
    ensures var step := Trips(LoginSystem(server), t, k, requests)[j];
            Invariant(step.0) && SafeTrip(step.0, requests[j], step.1)
  {
    var system := LoginSystem(server);
    var good := (t: Tables) => Invariant(t);
    var fits := (t: Tables) => KeysFit(t);
    var safe := (t: Tables, q: Inquiry, trip: Trip) => SafeTrip(t, q, trip);
    forall t, k, q | good(t) && fits(t)
      ensures safe(t, q, system(t, k, q)) && good(system(t, k, q).t)
    {
      AttemptKeeps(t, server, k, q);
      AttemptNotifies(t, server, k, q);
    }
    RunOfSafeTrips(system, good, fits, safe, t, k, requests, j);
  }

  lemma AttemptKeeps(t: Tables, server: Server, k: nat, q: Inquiry)
    requires Invariant(t) && KeysFit(t)
    ensures var t' := Attempt(t, server, k, q).t; Invariant(t') && Grows(t, t')
  {
    ServeKeeps(t, ServerFor(server, k, q), k, q, LinksFor(q));
  }

  // ---------------------------------------------------------------- terminals that are not told

  const UP := Links(true, true, true, true)

  function LoginBody(user: string, password: string): Json {
    Obj([(UserName, Str(user))] + [(PassWord, Str(password))])
  }

  /** A message as a client builds it. */
  function ClientMessage(kind: int, body: Json): Json {
    Obj([(MessageType, Num(kind))] + [(Message, body)])
  }

  function LoginMessage(user: string, password: string): Json { ClientMessage(2, LoginBody(user, password)) }

  /** The same, with a `logoutFd` planted for the reply. */
  function PlantedMessage(user: string, password: string, clientFd: int, logoutFd: int): Json {
    var planted := Obj([(ClientFd, Num(clientFd))] + [(LogoutFd, Num(logoutFd))]);
    Obj([(MessageType, Num(LOGIN))] + ([(Message, LoginBody(user, password))] + [(ExtendInfo, planted)]))
  }

  lemma FindCons(key: Key, value: Json, rest: seq<(Key, Json)>, other: Key)
    ensures Find([(key, value)] + rest, other) == if key == other then Some(value) else Find(rest, other)
  {
    assert ([(key, value)] + rest)[1..] == rest;
  }

  lemma FindOne(key: Key, value: Json, other: Key)
    ensures Find([(key, value)], other) == if key == other then Some(value) else None
  {
    FindCons(key, value, [], other);
    Nothing([(key, value)]);
  }

  lemma BodyCall(user: string, password: string, ext: Json, fd: int)
    requires ext.Obj? && Get(ext, ClientFd) == Some(Num(fd))
    ensures ReadItems(Some(LoginBody(user, password)), Some(ext), LOGIN) == Good(SignIn(user, password, fd))
  {
    FindCons(UserName, Str(user), [(PassWord, Str(password))], UserName);
    FindCons(UserName, Str(user), [(PassWord, Str(password))], PassWord);
    FindOne(PassWord, Str(password), PassWord);
  }

  lemma ClientMessageItems(kind: int, body: Json, key: Key)
    requires key in {MessageType, Message, ExtendInfo, OperateType}
    ensures Get(ClientMessage(kind, body), key) ==
            if key == MessageType then Some(Num(kind)) else if key == Message then Some(body) else None
  {
    FindCons(MessageType, Num(kind), [(Message, body)], key);
    FindOne(Message, body, key);
  }

  lemma LoginMessageCall(user: string, password: string, fd: int)
    ensures ClientCall(LoginMessage(user, password), fd) == Good(SignIn(user, password, fd))
    ensures Get(LoginMessage(user, password), ExtendInfo) == None
    ensures OpOf(LoginMessage(user, password)) == Some(Num(LOGIN))
  {
    forall key | key in {MessageType, Message, ExtendInfo, OperateType}
      ensures Get(LoginMessage(user, password), key) ==
              if key == MessageType then Some(Num(2))
              else if key == Message then Some(LoginBody(user, password)) else None
    {
      ClientMessageItems(2, LoginBody(user, password), key);
    }
    FindOne(ClientFd, Num(fd), ClientFd);
    BodyCall(user, password, Obj([(ClientFd, Num(fd))]), fd);
  }

  lemma PlantedMessageCall(user: string, password: string, fd: int, clientFd: int, logoutFd: int)
    ensures var m := PlantedMessage(user, password, clientFd, logoutFd);
            && ClientCall(m, fd) == Good(SignIn(user, password, clientFd))
            && Get(m, ExtendInfo).Some? && Get(Get(m, ExtendInfo).value, LogoutFd) == Some(Num(logoutFd))
  {
    var m := PlantedMessage(user, password, clientFd, logoutFd);
    var ext := Obj([(ClientFd, Num(clientFd))] + [(LogoutFd, Num(logoutFd))]);
    var body := LoginBody(user, password);
    forall key | key in {MessageType, Message, ExtendInfo, OperateType}
      ensures Get(m, key) == if key == MessageType then Some(Num(LOGIN)) else if key == Message then Some(body)
                             else if key == ExtendInfo then Some(ext) else None
    {
      FindCons(MessageType, Num(LOGIN), [(Message, body)] + [(ExtendInfo, ext)], key);
      FindCons(Message, body, [(ExtendInfo, ext)], key);
      FindOne(ExtendInfo, ext, key);
    }
    FindCons(ClientFd, Num(clientFd), [(LogoutFd, Num(logoutFd))], ClientFd);
    FindCons(ClientFd, Num(clientFd), [(LogoutFd, Num(logoutFd))], LogoutFd);
    FindOne(LogoutFd, Num(logoutFd), LogoutFd);
    BodyCall(user, password, ext, clientFd);
  }

  /** A takeover of `OneSession` in which every statement succeeds evicts its row. */
  lemma OneSessionEvicted(user: string, password: string, server: Server, k: nat, fd: int)
    requires forall i :: server(i) == Done(0)
    ensures var t := OneSession(user, password, 1);
            var s := LoginStep(t, server, k, user, password, fd);
            && Invariant(t) && KeysFit(t) && Evicts(t, s.t, 0)
            && s.out == Returned(0, 5, SUCCESS, LoginSuccess)
  {
    var t := OneSession(user, password, 1);
    OneSessionShape(user, password, 1);
    TakeoverEvicts(t, server, k + 3, user, password, fd, 0);
  }

  /** A login from fd 6 that plants fd 7 evicts the terminal on fd 5, which is not told. */
  lemma PlantedFdIsNotTold(user: string, password: string, server: Server)
    requires forall i :: server(i) == Done(0)
    ensures var t := OneSession(user, password, 1);
            var trip := Serve(t, server, 0, 6, PlantedMessage(user, password, 6, 7), UP);
            Invariant(t) && KeysFit(t) && Evicts(t, trip.t, 0) && !ToldFirst(trip.sent, 5, 6)
  {
    var t, m := OneSession(user, password, 1), PlantedMessage(user, password, 6, 7);
    OneSessionEvicted(user, password, server, 0, 6);
    PlantedMessageCall(user, password, 6, 6, 7);
    ServeRunsCall(t, server, 0, 6, m, UP);
    EvictionToldIff(t, server, 0, 6, m, UP, 0);
  }

  /** A login killed after its fourth statement evicts the terminal on fd 5 and tells nobody. */
  lemma KilledLoginIsSilent(user: string, password: string, server: Server)
    requires forall i :: server(i) == Done(0)
    ensures var t := OneSession(user, password, 1);
            var trip := Attempt(t, server, 0, Inquiry(6, LoginMessage(user, password), UP, Some(4)));
            Invariant(t) && KeysFit(t) && Evicts(t, trip.t, 0) && trip.sent == []
  {
    OneSessionShape(user, password, 1);
    LoginMessageCall(user, password, 6);
    var q := Inquiry(6, LoginMessage(user, password), UP, Some(4));
    KilledLoginEvictsIff(OneSession(user, password, 1), server, 0, q, 4, 0);
  }
}

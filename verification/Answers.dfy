/** What the requester reads, against what happened to the accounts and the sessions. */
module Answers {
  import opened Basics
  import opened LoginTables
  import opened LoginSpec
  import opened LoginRuns
  import opened Messages
  import opened Evictions

  // ---------------------------------------------------------------- which calls succeed

  /** The pair is registered, and every statement of the login was reported done; whether the
      user is logged in already is asked only where it is not so. */
  ghost predicate LoginDone(v: View, server: Server, k: nat, user: string, password: string) {
    && user in v.accounts && v.accounts[user] == password && server(k).Done?
    && if user in v.sessions then server(k + 2).Done? && server(k + 3).Done? && server(k + 4).Done?
       else server(k + 1).Done? && server(k + 2).Done?
  }

  ghost predicate LogoutDone(v: View, server: Server, k: nat, user: string) {
    server(k).Done? && (user in v.sessions ==> server(k + 1).Done?)
  }

  ghost predicate RegistDone(v: View, server: Server, k: nat, user: string) {
    server(k).Done? && user !in v.accounts && server(k + 1).Done?
  }

  ghost predicate Succeeds(v: View, server: Server, k: nat, c: Call) {
    match c
    case Regist(user, _) => RegistDone(v, server, k, user)
    case SignIn(user, password, _) => LoginDone(v, server, k, user, password)
    case SignOut(user) => LogoutDone(v, server, k, user)
  }

  /** The accounts and sessions after a call that succeeded. */
  ghost function Changed(v: View, c: Call): View {
    match c
    case Regist(user, password) => v.(accounts := v.accounts[user := password])
    case SignIn(user, _, fd) => v.(sessions := v.sessions[user := fd])
    case SignOut(user) => v.(sessions := v.sessions - {user})
  }

  /** The text for the requester, from the accounts, the sessions and the server's answers. */
  ghost function AnswerText(v: View, server: Server, k: nat, c: Call): string {
    match c
    case Regist(user, _) =>
      if RegistDone(v, server, k, user) then "regist success!"
      else if server(k).Done? && user in v.accounts then user + " already regist!"
      else "SYSTEM ERROR: process regist occur unexpect error!"
    case SignIn(user, password, _) =>
      if LoginDone(v, server, k, user, password) then "login success!"
      else "SYSTEM ERROR: process login occur unexpect error!"
    case SignOut(user) =>
      if LogoutDone(v, server, k, user) then "logout success!"
      else "SYSTEM ERROR: process logout occur unexpect error!"
  }

  lemma LoginDoneIff(t: Tables, server: Server, k: nat, user: string, password: string, fd: int)
    requires Invariant(t) && KeysFit(t)
    ensures var out := LoginStep(t, server, k, user, password, fd).out;
            && (out.Returned? && out.ret == 0 <==> LoginDone(ViewOf(t), server, k, user, password))
            && (out.Returned? && out.ret == 0 ==> out.msg == LoginSuccess)
  {
    KnownPairMeaning(t, user, password);
    AnswersLoginedMeaning(t, user, server(k + 1));
    SessionKey(t.logins, user);
  }

  lemma LogoutDoneIff(t: Tables, server: Server, k: nat, user: string)
    ensures var out := LogoutStep(t, server, k, user).out;
            && out.Returned? && (out.ret == 0 <==> LogoutDone(ViewOf(t), server, k, user))
            && (out.ret == 0 ==> out.msg == LogoutSuccess)
  {
    SessionKey(t.logins, user);
  }

  lemma RegistDoneIff(t: Tables, server: Server, k: nat, user: string, password: string)
    requires Invariant(t)
    ensures var out, v := RegistStep(t, server, k, user, password).out, ViewOf(t);
            && out.Returned?
            && (out.ret == 0 <==> RegistDone(v, server, k, user) || (server(k).Done? && user in v.accounts))
            && (RegistDone(v, server, k, user) ==> out.code == 0 && out.msg == RegistSuccess)
            && (out.ret == 0 && user in v.accounts ==> out.msg == AlreadyRegist(user))
  {
    TakenIff(t, user);
  }

  /** The requester has been answered: the reply came back and was written to it. */
  predicate Answered(trip: Trip, links: Links) { links.answerOk && trip.sent != [] }

  /** The answer is the last thing written. */
  function LastText(trip: Trip): string
    requires trip.sent != []
  {
    Render(trip.sent[|trip.sent| - 1].1)
  }

  lemma TellsLast(clientFd: int, logoutFd: int, msg: Notice, orderOk: bool)
    ensures var sent := Writes(clientFd, logoutFd, msg, orderOk, true);
            sent != [] ==> sent[|sent| - 1] == (clientFd, msg)
  {
  }

  /** The operation and the call agree. */
  lemma CallOfOp(m: Json, clientFd: int)
    requires ClientCall(m, clientFd).Good?
    ensures var op, c := OpOf(m), ClientCall(m, clientFd).call;
            && op.Some? && op.value.Num?
            && (c.Regist? <==> op.value.n == 1) && (c.SignIn? <==> op.value.n == 2) && (c.SignOut? <==> op.value.n == 3)
  {
  }

  lemma LoginText(t: Tables, server: Server, k: nat, user: string, password: string, fd: int)
    requires Invariant(t) && KeysFit(t)
    ensures var out := LoginStep(t, server, k, user, password, fd).out;
            out.Returned? ==>
              Render(Verdict(out, 2)) ==
                if LoginDone(ViewOf(t), server, k, user, password) then "login success!"
                else "SYSTEM ERROR: process login occur unexpect error!"
  {
    LoginDoneIff(t, server, k, user, password, fd);
  }

  lemma LogoutText(t: Tables, server: Server, k: nat, user: string)
    ensures Render(Verdict(LogoutStep(t, server, k, user).out, 3)) ==
            if LogoutDone(ViewOf(t), server, k, user) then "logout success!"
            else "SYSTEM ERROR: process logout occur unexpect error!"
  {
    LogoutDoneIff(t, server, k, user);
  }

  lemma RegistText(t: Tables, server: Server, k: nat, user: string, password: string)
    requires Invariant(t)
    ensures Render(Verdict(RegistStep(t, server, k, user, password).out, 1)) ==
            if RegistDone(ViewOf(t), server, k, user) then "regist success!"
            else if server(k).Done? && user in ViewOf(t).accounts then user + " already regist!"
            else "SYSTEM ERROR: process regist occur unexpect error!"
  {
    RegistDoneIff(t, server, k, user, password);
  }

  lemma VerdictText(t: Tables, server: Server, k: nat, c: Call, op: int)
    requires Invariant(t) && KeysFit(t)
    requires (c.Regist? <==> op == 1) && (c.SignIn? <==> op == 2) && (c.SignOut? <==> op == 3)
    ensures var out := Exec(t, server, k, c).out;
            out.Returned? ==> Render(Verdict(out, op)) == AnswerText(ViewOf(t), server, k, c)
  {
    match c
    case Regist(user, password) => RegistText(t, server, k, user, password);
    case SignIn(user, password, fd) => LoginText(t, server, k, user, password, fd);
    case SignOut(user) => LogoutText(t, server, k, user);
  }

  /** The text written to the requester says what happened to its call. */
  lemma AnswerTells(t: Tables, server: Server, k: nat, clientFd: int, m: Json, links: Links)
    requires Invariant(t) && KeysFit(t) && ClientCall(m, clientFd).Good?
    requires Answered(Serve(t, server, k, clientFd, m, links), links)
    ensures var trip := Serve(t, server, k, clientFd, m, links);
            && trip.sent[|trip.sent| - 1].0 == clientFd
            && LastText(trip) == AnswerText(ViewOf(t), server, k, ClientCall(m, clientFd).call)
  {
    var c, op := ClientCall(m, clientFd).call, OpOf(m).value.n;
    var out := Exec(t, server, k, c).out;
    ServeRunsCall(t, server, k, clientFd, m, links);
    CallOfOp(m, clientFd);
    VerdictText(t, server, k, c, op);
    if out.Returned? {
      var fd := NoticeFd(ExtOf(m, clientFd), out.logoutFd);
      TellsLast(clientFd, fd.value, Verdict(out, op), links.orderOk);
    }
  }

  /** The text for a message that names no call. */
  function RefusalText(op: int): string {
    if op == 1 then "SYSTEM ERROR: process regist occur unexpect error!"
    else if op == 2 then "SYSTEM ERROR: process login occur unexpect error!"
    else if op == 3 then "SYSTEM ERROR: process logout occur unexpect error!"
    else "SYSTEM ERROR: operateType is illegal!"
  }

  lemma RefusalReply(t: Tables, server: Server, k: nat, m: Json, msg: Notice)
    requires var op := Get(m, OperateType);
             && op.Some? && op.value.Num?
             && if KnownType(op) then ReadRequest(m, op.value.n).Bad? && msg == Unexpected(op.value.n)
                else msg == IllegalOperation
    ensures Handle(t, server, k, m) == Handled(t, 0, Response(m, -1, SYSTEM_ERROR, msg))
  {
  }

  /** A message that names no call and is answered all the same. */
  lemma RefusalHandled(t: Tables, server: Server, k: nat, clientFd: int, m: Json)
    requires !ClientCall(m, clientFd).Good? && Route(Stamp(m, clientFd), true).Forward?
    requires Handle(t, server, k, Route(Stamp(m, clientFd), true).m).reply.Say?
    ensures var hop, op := Route(Stamp(m, clientFd), true), OpOf(m);
            && Get(hop.m, ExtendInfo) == Some(ExtOf(m, clientFd)) && op.Some? && op.value.Num?
            && var msg := if KnownType(op) then Unexpected(op.value.n) else IllegalOperation;
               Handle(t, server, k, hop.m).reply == Response(hop.m, -1, SYSTEM_ERROR, msg)
  {
    HopsCarry(m, clientFd);
    var hop, op := Route(Stamp(m, clientFd), true), OpOf(m);
    if KnownType(op) {
      assert ReadRequest(hop.m, op.value.n) == ClientCall(m, clientFd);
      RefusalReply(t, server, k, hop.m, Unexpected(op.value.n));
    } else {
      RefusalReply(t, server, k, hop.m, IllegalOperation);
    }
  }

  lemma RefusalTells(t: Tables, server: Server, k: nat, clientFd: int, m: Json, links: Links)
    requires !ClientCall(m, clientFd).Good? && Answered(Serve(t, server, k, clientFd, m, links), links)
    ensures var trip, op := Serve(t, server, k, clientFd, m, links), OpOf(m);
            && trip.sent[|trip.sent| - 1].0 == clientFd
            && op.Some? && op.value.Num? && LastText(trip) == RefusalText(op.value.n)
  {
    var hop, op := Route(Stamp(m, clientFd), true), OpOf(m);
    RefusalHandled(t, server, k, clientFd, m);
    var msg := if KnownType(op) then Unexpected(op.value.n) else IllegalOperation;
    RefusalSent(hop.m, ExtOf(m, clientFd), clientFd, msg, links);
    RefusalRenders(op.value.n, msg);
  }

  lemma RefusalRenders(op: int, msg: Notice)
    requires msg == if op in {1, 2, 3} then Unexpected(op) else IllegalOperation
    ensures Render(msg) == RefusalText(op)
  {
  }

  lemma RefusalSent(m: Json, ext: Json, clientFd: int, msg: Notice, links: Links)
    requires Get(m, ExtendInfo) == Some(ext) && links.answerOk
    ensures var r := Response(m, -1, SYSTEM_ERROR, msg);
            && r.Say?
            && var sent := SentFor(clientFd, r.answer, links); sent != [] ==> sent[|sent| - 1] == (clientFd, msg)
  {
    ReplyCarries(m, ext, -1, SYSTEM_ERROR, msg);
    var fd := NoticeFd(ext, -1);
    if fd.Some? { TellsLast(clientFd, fd.value, msg, links.orderOk); }
  }

  lemma RefusalIsNoSuccess(op: int)
    ensures var text := RefusalText(op);
            text != "login success!" && text != "logout success!" && text != "regist success!"
  {
    assert |RefusalText(op)| > 30;
  }

  /** Whatever the user is called. */
  lemma TakenIsNoSuccess(user: string)
    ensures var text := user + " already regist!";
            text != "login success!" && text != "logout success!" && text != "regist success!"
  {
    var text := user + " already regist!";
    assert text[|text| - 2] == 't';
    assert "login success!"[12] == 's' && "logout success!"[13] == 's' && "regist success!"[13] == 's';
  }

  lemma SuccessesDiffer()
    ensures "login success!" != "logout success!" && "login success!" != "regist success!"
    ensures "logout success!" != "regist success!"
  {
    assert "logout success!"[0] == 'l' && "regist success!"[0] == 'r';
  }

  lemma AnswerMeans(v: View, server: Server, k: nat, c: Call)
    ensures var text := AnswerText(v, server, k, c);
            && (text == "login success!" <==> c.SignIn? && Succeeds(v, server, k, c))
            && (text == "logout success!" <==> c.SignOut? && Succeeds(v, server, k, c))
            && (text == "regist success!" <==> c.Regist? && Succeeds(v, server, k, c))
  {
    SuccessesDiffer();
    match c
    case Regist(user, _) =>
      TakenIsNoSuccess(user);
      RefusalIsNoSuccess(1);
    case SignIn(_, _, _) => RefusalIsNoSuccess(2);
    case SignOut(_) => RefusalIsNoSuccess(3);
  }

  lemma SuccessChanges(t: Tables, server: Server, k: nat, c: Call)
    requires Invariant(t) && KeysFit(t) && Succeeds(ViewOf(t), server, k, c)
    ensures ViewOf(Exec(t, server, k, c).t) == Changed(ViewOf(t), c)
  {
    ExecSafe(t, server, k, c);
    match c
    case Regist(user, password) => RegistDoneIff(t, server, k, user, password);
    case SignIn(user, password, fd) => LoginDoneIff(t, server, k, user, password, fd);
    case SignOut(user) => LogoutDoneIff(t, server, k, user);
  }

  /** What the requester is told is true: it reads "login success!" if and only if its message
      was a login of a registered pair whose statements were all done, and then the user's
      session is on that login's fd; "logout success!" if and only if it was a logout whose
      statements were done, and then the session is gone; "regist success!" if and only if the
      name was free and has been registered.  Every other request that is answered reads none
      of the three. */
  lemma AnswerIff(t: Tables, server: Server, k: nat, clientFd: int, m: Json, links: Links)
    requires Invariant(t) && KeysFit(t)
    requires Answered(Serve(t, server, k, clientFd, m, links), links)
    ensures var trip, q, v := Serve(t, server, k, clientFd, m, links), ClientCall(m, clientFd), ViewOf(t);
            && trip.sent[|trip.sent| - 1].0 == clientFd
            && (LastText(trip) == "login success!" <==> q.Good? && q.call.SignIn? && Succeeds(v, server, k, q.call))
            && (LastText(trip) == "logout success!" <==> q.Good? && q.call.SignOut? && Succeeds(v, server, k, q.call))
            && (LastText(trip) == "regist success!" <==> q.Good? && q.call.Regist? && Succeeds(v, server, k, q.call))
            && (q.Good? && Succeeds(v, server, k, q.call) ==> ViewOf(trip.t) == Changed(v, q.call))
  {
    var q := ClientCall(m, clientFd);
    if q.Good? {
      AnswerTells(t, server, k, clientFd, m, links);
      AnswerMeans(ViewOf(t), server, k, q.call);
      if Succeeds(ViewOf(t), server, k, q.call) {
        SuccessChanges(t, server, k, q.call);
        ServeRunsCall(t, server, k, clientFd, m, links);
      }
    } else {
      RefusalTells(t, server, k, clientFd, m, links);
      RefusalIsNoSuccess(OpOf(m).value.n);
    }
  }

  lemma OrderOnly(clientFd: int, a: Answer, links: Links)
    requires !links.answerOk
    ensures var sent := SentFor(clientFd, a, links); |sent| <= 1 && (sent != [] ==> sent[0].1 == LogoutOrder)
  {
  }

  /** Where the answer cannot be written, all that anyone reads is "logout". */
  lemma UnansweredReadsNothing(t: Tables, server: Server, k: nat, clientFd: int, m: Json, links: Links)
    requires !links.answerOk
    ensures var sent := Serve(t, server, k, clientFd, m, links).sent;
            |sent| <= 1 && (sent != [] ==> Render(sent[0].1) == "logout")
  {
    var hop := Route(Stamp(m, clientFd), true);
    if hop.Forward? {
      var reply := Handle(t, server, k, hop.m).reply;
      if reply.Say? { OrderOnly(clientFd, reply.answer, links); }
    }
  }

  /** A message without an `extendInfo` of its own is answered whenever its call returns and the
      socket calls succeed. */
  lemma AnsweredIff(t: Tables, server: Server, k: nat, clientFd: int, m: Json, links: Links)
    requires ClientCall(m, clientFd).Good? && Get(m, ExtendInfo) == None
    ensures var out := Exec(t, server, k, ClientCall(m, clientFd).call).out;
            Answered(Serve(t, server, k, clientFd, m, links), links) <==>
              && links.there && links.back && links.answerOk
              && out.Returned? && (out.logoutFd > 0 ==> links.orderOk)
  {
    var out := Exec(t, server, k, ClientCall(m, clientFd).call).out;
    if links.there { ServeRunsCall(t, server, k, clientFd, m, links); }
    if out.Returned? { LeavesFdMeaning(m, clientFd, out.logoutFd); }
  }

  ghost function AnswerCode(v: View, server: Server, k: nat, c: Call): int {
    if Succeeds(v, server, k, c) then 0
    else if c.Regist? && server(k).Done? && c.user in v.accounts then -3
    else -1
  }

  lemma ExecCode(t: Tables, server: Server, k: nat, c: Call)
    requires Invariant(t) && KeysFit(t)
    ensures var out := Exec(t, server, k, c).out;
            out.Returned? ==> (if out.ret != 0 then -1 else out.code) == AnswerCode(ViewOf(t), server, k, c)
  {
    match c
    case Regist(user, password) => RegistDoneIff(t, server, k, user, password);
    case SignIn(user, password, fd) => LoginDoneIff(t, server, k, user, password, fd);
    case SignOut(user) => LogoutDoneIff(t, server, k, user);
  }

  /** The code in the login manager's reply agrees with the text. */
  lemma ReplyCode(t: Tables, server: Server, k: nat, clientFd: int, m: Json)
    requires Invariant(t) && KeysFit(t) && ClientCall(m, clientFd).Good?
    ensures var hop := Route(Stamp(m, clientFd), true);
            hop.Forward? && var reply := Handle(t, server, k, hop.m).reply;
            reply.Say? ==> reply.answer.code == AnswerCode(ViewOf(t), server, k, ClientCall(m, clientFd).call)
  {
    HopsCarry(m, clientFd);
    assert ReadRequest(Route(Stamp(m, clientFd), true).m, OpOf(m).value.n) == ClientCall(m, clientFd);
    ExecCode(t, server, k, ClientCall(m, clientFd).call);
  }

  // ---------------------------------------------------------------- what the clients send

  function UserBody(user: string): Json { Obj([(UserName, Str(user))]) }

  /** Type 1 registers the user with the password, and does not look at `extendInfo`. */
  lemma RegistMessageCall(user: string, password: string, fd: int)
    ensures ClientCall(ClientMessage(1, LoginBody(user, password)), fd) == Good(Call.Regist(user, password))
  {
    var m, rest := ClientMessage(1, LoginBody(user, password)), [(PassWord, Str(password))];
    ClientMessageItems(1, LoginBody(user, password), MessageType);
    ClientMessageItems(1, LoginBody(user, password), OperateType);
    ClientMessageItems(1, LoginBody(user, password), Message);
    FindCons(UserName, Str(user), rest, UserName);
    FindCons(UserName, Str(user), rest, PassWord);
    FindOne(PassWord, Str(password), PassWord);
  }

  /** Type 3 logs the user out, and needs no password. */
  lemma LogoutMessageCall(user: string, fd: int)
    ensures ClientCall(ClientMessage(3, UserBody(user)), fd) == Good(SignOut(user))
  {
    ClientMessageItems(3, UserBody(user), MessageType);
    ClientMessageItems(3, UserBody(user), OperateType);
    ClientMessageItems(3, UserBody(user), Message);
    FindOne(UserName, Str(user), UserName);
    FindOne(UserName, Str(user), PassWord);
  }
}

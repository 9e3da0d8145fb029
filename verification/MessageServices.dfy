/** The classes of the three processes, as far as they handle messages. */
module MessageServices {
  import opened Basics
  import opened LoginTables
  import opened LoginSpec
  import opened LoginRuns
  import opened LoginService
  import opened Messages
  import opened Handlers

  class UserLoginImpl {
    const api: SqlApi

    constructor (original: SqlApi)
      requires original.rows == []
      ensures fresh(api) && api.db == original.db && api.rows == []
    {
      api := new SqlApi.Copy(original);
    }

    /** What the three operations have in common: `bad` is their return value -1 before any
        statement, `Crashed` a failed assert. */
    twostate predicate Ran(new m: Json, op: int, bad: bool, out: CallOut)
      requires op in {REGIST, LOGIN, LOGOUT}
      reads api.db
    {
      var r := ReadRequest(m, op);
      && bad == r.Bad?
      && (r.Good? ==> Did(Exec(old(api.db.t), api.db.server, old(api.db.tick), r.call), old(api.db.tick), api.db, out))
      && (!r.Good? ==> api.db.t == old(api.db.t) && api.db.tick == old(api.db.tick))
      && (r.Fault? ==> out == Crashed)
    }

    method ProcessLogin(m: Json) returns (bad: bool, out: CallOut)
      requires api.rows == []
      modifies api.db
      ensures Ran(m, LOGIN, bad, out)
    {
      var message, extendInfo := Get(m, Message), Get(m, ExtendInfo);
      if message.None? || extendInfo.None? { return true, Crashed; }
      if !message.value.Obj? { return false, Crashed; }
      if !extendInfo.value.Obj? { return false, Crashed; }
      var userName, passWord := Get(message.value, UserName), Get(message.value, PassWord);
      var clientFd := Get(extendInfo.value, ClientFd);
      if userName.None? || passWord.None? || clientFd.None? { return true, Crashed; }
      if !userName.value.Str? { return false, Crashed; }
      if !passWord.value.Str? { return false, Crashed; }
      if !clientFd.value.Num? { return false, Crashed; }
      var loginer := new Loginer(api);
      bad := false;
      out := loginer.ProcessLogin(userName.value.s, passWord.value.s, clientFd.value.n);
    }

    method ProcessLogout(m: Json) returns (bad: bool, out: CallOut)
      requires api.rows == []
      modifies api.db
      ensures Ran(m, LOGOUT, bad, out)
    {
      var message := Get(m, Message);
      if message.None? { return true, Crashed; }
      if !message.value.Obj? { return false, Crashed; }
      var userName := Get(message.value, UserName);
      if userName.None? { return true, Crashed; }
      if !userName.value.Str? { return false, Crashed; }
      var loginer := new Loginer(api);
      bad := false;
      out := loginer.ProcessLogout(userName.value.s);
    }

    method ProcessRegist(m: Json) returns (bad: bool, out: CallOut)
      requires api.rows == []
      modifies api.db
      ensures Ran(m, REGIST, bad, out)
    {
      var message := Get(m, Message);
      if message.None? { return true, Crashed; }
      if !message.value.Obj? { return false, Crashed; }
      var userName, passWord := Get(message.value, UserName), Get(message.value, PassWord);
      if userName.None? || passWord.None? { return true, Crashed; }
      if !userName.value.Str? { return false, Crashed; }
      if !passWord.value.Str? { return false, Crashed; }
      var register := new Register(api);
      bad := false;
      out := register.ProcessRegist(userName.value.s, passWord.value.s);
    }

    method DealClientMessage(m: Json) returns (reply: Reply)
      requires api.rows == []
      modifies api.db
      ensures var h := Handle(old(api.db.t), api.db.server, old(api.db.tick), m);
              api.db.t == h.t && api.db.tick == old(api.db.tick) + h.used && reply == h.reply
    {
      var errmsg, errcode, logoutFd := FormatError, 0, -1;
      var op := Get(m, OperateType);
      if op.None? {
        errmsg := FormatError;
      } else if !op.value.Num? {
        return Died;
      } else if op.value.n in {REGIST, LOGIN, LOGOUT} {
        var bad, out := Process(m, op.value.n);
        if !bad && out.Crashed? { return Died; }
        if !bad { logoutFd, errcode, errmsg := out.logoutFd, out.code, out.msg; }
        if bad || out.ret != 0 {
          errcode, errmsg := SYSTEM_ERROR, Unexpected(op.value.n);
        }
      } else {
        errcode, errmsg := SYSTEM_ERROR, IllegalOperation;
      }
      reply := Response(m, logoutFd, errcode, errmsg);
    }

    /** The switch over the operations. */
    method Process(m: Json, op: int) returns (bad: bool, out: CallOut)
      requires op in {REGIST, LOGIN, LOGOUT} && api.rows == []
      modifies api.db
      ensures Ran(m, op, bad, out)
    {
      if op == REGIST {
        bad, out := ProcessRegist(m);
      } else if op == LOGIN {
        bad, out := ProcessLogin(m);
      } else {
        bad, out := ProcessLogout(m);
      }
    }
  }

  class MessageDispatcher {
    var serviceFds: map<int, int>
    var names: map<int, string>

    constructor ()
      ensures serviceFds == map[] && names == map[]
    {
      serviceFds, names := map[], map[];
    }

    /** `std::map::insert` keeps an entry that is already there; nothing is entered when the
        connection or its registration with epoll fails. */
    method ConnectAllHandleService(socketFd: int, connected: bool, ctlOk: bool) returns (ret: int)
      modifies this
      ensures ret == if connected && ctlOk then 0 else -1
      ensures serviceFds == if ret == 0 then map[LOGINER_SERVICE := socketFd] + old(serviceFds) else old(serviceFds)
      ensures names == if ret == 0 then map[socketFd := "LOGINER SERVICE"] + old(names) else old(names)
    {
      if !connected { return -1; }
      if !ctlOk { return -1; }
      if LOGINER_SERVICE !in serviceFds { serviceFds := serviceFds[LOGINER_SERVICE := socketFd]; }
      if socketFd !in names { names := names[socketFd := "LOGINER SERVICE"]; }
      ret := 0;
    }

    method GetServiceFdAndMessage(m: Json) returns (hop: Hop, serviceFd: int)
      ensures hop == Route(m, LOGINER_SERVICE in serviceFds)
      ensures hop.Forward? ==> LOGINER_SERVICE in serviceFds && serviceFd == serviceFds[LOGINER_SERVICE]
    {
      serviceFd := 0;
      var kind := Get(m, MessageType);
      if kind.None? { return Refuse, 0; }
      if !kind.value.Num? { return Abort, 0; }
      if kind.value.n !in {REGIST, LOGIN, LOGOUT} { return Refuse, 0; }
      if LOGINER_SERVICE !in serviceFds { return Refuse, 0; }
      serviceFd := serviceFds[LOGINER_SERVICE];
      hop := Forward(Add(m, OperateType, Num(kind.value.n)));
    }

    /** Passes the message on, reads the reply and writes it back. */
    method DealClientMessage(m: Json, calls: Calls) returns (ret: int, died: bool)
      ensures died <==> Route(m, LOGINER_SERVICE in serviceFds).Abort?
      ensures !died ==> ret == if DispatcherOk(m, LOGINER_SERVICE in serviceFds, calls) then 0 else -1
    {
      ret, died := -1, false;
      var hop, _ := GetServiceFdAndMessage(m);
      if hop.Abort? { return -1, true; }
      if hop.Refuse? { return; }
      if !calls.writeOk { return; }
      if !calls.readOk { return; }
      if !calls.answerOk { return; }
      ret := 0;
    }
  }

  class MessageReceiver {
    var sent: seq<(int, Notice)>

    constructor ()
      ensures sent == []
    {
      sent := [];
    }

    /** Tells the evicted terminal first, then the requester; a write that fails ends it. */
    method DealServiceResponse(clientFd: int, a: Answer, orderOk: bool, answerOk: bool)
      returns (ret: int, crashed: bool)
      modifies this
      ensures match ReadLogoutFd(a)
              case Some(fd) =>
                && !crashed && sent == old(sent) + Writes(clientFd, fd, a.msg, orderOk, answerOk)
                && ret == if (fd > 0 ==> orderOk) && answerOk then 0 else -1
              case None => (ret == -1 || crashed) && sent == old(sent)
    {
      ret, crashed := -1, false;
      if !a.extendInfo.Obj? { return -1, true; }
      var fd := Get(a.extendInfo, LogoutFd);
      if fd.None? { return; }
      if !fd.value.Num? { return -1, true; }
      Nothing(sent);
      if fd.value.n > 0 {
        if !orderOk { return -1, false; }
        sent := sent + [(fd.value.n, LogoutOrder)];
        Nothing(sent);
      }
      if !answerOk { return -1, false; }
      sent := sent + [(clientFd, a.msg)];
      ret := 0;
    }

    /** Passes the message on, reads the reply and deals with it. */
    method DealClientMessage(clientFd: int, reply: Answer, calls: Calls) returns (ret: int, crashed: bool)
      modifies this
      ensures !crashed ==> ret == if ReceiverOk(reply, calls) then 0 else -1
      ensures crashed ==> calls.writeOk && calls.readOk && ReadLogoutFd(reply).None?
    {
      ret, crashed := -1, false;
      if !calls.writeOk { return; }
      if !calls.readOk { return; }
      ret, crashed := DealServiceResponse(clientFd, reply, calls.orderOk, calls.answerOk);
    }
  }

  /** One request through the three objects moves the tables and the sockets as `Serve` says. */
  method ServeRequest(receiver: MessageReceiver, dispatcher: MessageDispatcher, manager: UserLoginImpl,
                      clientFd: int, m: Json, links: Links)
    requires manager.api.rows == [] && LOGINER_SERVICE in dispatcher.serviceFds
    modifies receiver, manager.api.db
    ensures var trip := Serve(old(manager.api.db.t), manager.api.db.server, old(manager.api.db.tick),
                              clientFd, m, links);
            manager.api.db.t == trip.t && receiver.sent == old(receiver.sent) + trip.sent
  {
    Nothing(receiver.sent);
    var hop, _ := dispatcher.GetServiceFdAndMessage(Stamp(m, clientFd));
    if links.there && hop.Forward? {
      var reply := manager.DealClientMessage(hop.m);
      if links.back && reply.Say? {
        var _, _ := receiver.DealServiceResponse(clientFd, reply.answer, links.orderOk, links.answerOk);
      }
    }
  }
}

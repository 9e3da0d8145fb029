/** The path of one request: the receiver stamps the client's fd on the message, the
    dispatcher stamps the operation, the login manager runs it, and the reply travels
    back to the receiver, which tells an evicted terminal before it answers. */
module Messages {
  import opened Basics
  import opened LoginTables
  import opened LoginSpec
  import opened LoginRuns

  const REGIST := 1
  const LOGIN := 2
  const LOGOUT := 3
  const LOGINER_SERVICE := 1

  /** A parsed message.  An object keeps its items in order; lookup finds the first. */
  datatype Json = Num(n: int) | Str(s: string) | Obj(items: seq<(Key, Json)>)

  /** The keys the services look for; every other key is one they never read. */
  datatype Key = MessageType | Message | UserName | PassWord | ExtendInfo | OperateType | ClientFd | LogoutFd
               | OtherKey(name: string)

  function Get(o: Json, key: Key): Option<Json> {
    if !o.Obj? then None else Find(o.items, key)
  }

  function Find(items: seq<(Key, Json)>, key: Key): Option<Json> {
    if items == [] then None
    else if items[0].0 == key then Some(items[0].1)
    else Find(items[1..], key)
  }

  function Add(o: Json, key: Key, value: Json): Json {
    if o.Obj? then Obj(o.items + [(key, value)]) else o
  }

  /** Adding a key at the end makes it readable exactly when no earlier item has that
      key (or carries the same value), and never disturbs another key. */
  lemma {:induction false} FindAfterAdd(items: seq<(Key, Json)>, key: Key, value: Json, other: Key)
    ensures Find(items + [(key, value)], other) ==
            if Find(items, other) == None && other == key then Some(value) else Find(items, other)
  {
    var all := items + [(key, value)];
    if items == [] {
      assert all[1..] == [];
    } else {
      assert all[1..] == items[1..] + [(key, value)];
      FindAfterAdd(items[1..], key, value, other);
    }
  }

  lemma GetAfterAdd(o: Json, key: Key, value: Json, other: Key)
    requires o.Obj?
    ensures Get(Add(o, key, value), other) ==
            if Get(o, other) == None && other == key then Some(value) else Get(o, other)
  {
    FindAfterAdd(o.items, key, value, other);
  }

  // ---------------------------------------------------------------- the hops

  function Stamp(m: Json, clientFd: int): Json {
    Add(m, ExtendInfo, Obj([(ClientFd, Num(clientFd))]))
  }

  /** How a process treats a message: it goes on, it gives up, or an assert ends it. */
  datatype Hop = Forward(m: Json) | Refuse | Abort

  predicate KnownType(kind: Option<Json>) { kind.Some? && kind.value.Num? && kind.value.n in {REGIST, LOGIN, LOGOUT} }

  function Route(m: Json, serviceKnown: bool): Hop {
    var kind := Get(m, MessageType);
    if kind.None? then Refuse
    else if !kind.value.Num? then Abort
    else if KnownType(kind) && serviceKnown then Forward(Add(m, OperateType, Num(kind.value.n)))
    else Refuse
  }

  datatype Request = Bad | Fault | Good(call: Call)

  /** What the login manager reads out of the items of a message for each operation. */
  function ReadItems(body: Option<Json>, ext: Option<Json>, op: int): Request
    requires op in {REGIST, LOGIN, LOGOUT}
  {
    if body.None? || (op == LOGIN && ext.None?) then Bad
    else if !body.value.Obj? || (op == LOGIN && !ext.value.Obj?) then Fault
    else
      var user, password := Get(body.value, UserName), Get(body.value, PassWord);
      var fd := if op == LOGIN then Get(ext.value, ClientFd) else None;
      if user.None? || (op != LOGOUT && password.None?) || (op == LOGIN && fd.None?) then Bad
      else if !user.value.Str? || (op != LOGOUT && !password.value.Str?) || (op == LOGIN && !fd.value.Num?) then Fault
      else if op == REGIST then Good(Call.Regist(user.value.s, password.value.s))
      else if op == LOGIN then Good(SignIn(user.value.s, password.value.s, fd.value.n))
      else Good(SignOut(user.value.s))
  }

  function ReadRequest(m: Json, op: int): Request
    requires op in {REGIST, LOGIN, LOGOUT}
  {
    ReadItems(Get(m, Message), Get(m, ExtendInfo), op)
  }

  function Unexpected(op: int): Notice {
    if op == REGIST then RegistUnexpected else if op == LOGIN then LoginUnexpected else LogoutUnexpected
  }

  /** The reply object the login manager builds. */
  datatype Answer = Answer(code: int, msg: Notice, extendInfo: Json)

  /** What the login manager writes back: nothing when the message has no `extendInfo`. */
  datatype Reply = Died | Silent | Say(answer: Answer)

  function Response(m: Json, logoutFd: int, code: int, msg: Notice): Reply {
    var ext := Get(m, ExtendInfo);
    if ext.None? then Silent else Say(Answer(code, msg, Add(ext.value, LogoutFd, Num(logoutFd))))
  }

  datatype Handled = Handled(t: Tables, used: nat, reply: Reply)

  /** The text that answers a call. */
  function Verdict(out: CallOut, op: int): Notice
    requires out.Returned?
  {
    if out.ret != 0 then Unexpected(op) else out.msg
  }

  function Handle(t: Tables, server: Server, k: nat, m: Json): Handled {
    var op := Get(m, OperateType);
    if op.None? then Handled(t, 0, Response(m, -1, SUCCESS, FormatError))
    else if !op.value.Num? then Handled(t, 0, Died)
    else if !KnownType(op) then Handled(t, 0, Response(m, -1, SYSTEM_ERROR, IllegalOperation))
    else
      var r := ReadRequest(m, op.value.n);
      if r.Bad? then Handled(t, 0, Response(m, -1, SYSTEM_ERROR, Unexpected(op.value.n)))
      else if r.Fault? then Handled(t, 0, Died)
      else
        var s := Exec(t, server, k, r.call);
        match s.out
        case Crashed => Handled(s.t, s.used, Died)
        case Returned(ret, logoutFd, code, msg) =>
          Handled(s.t, s.used,
                  Response(m, logoutFd, if ret != 0 then SYSTEM_ERROR else code, Verdict(s.out, op.value.n)))
  }

  // ---------------------------------------------------------------- the receiver's writes

  /** The fd the receiver finds in a reply; None when the reply is refused or ends it. */
  function ReadLogoutFd(a: Answer): Option<int> {
    var fd := Get(a.extendInfo, LogoutFd);
    if fd.None? || !fd.value.Num? then None else Some(fd.value.n)
  }

  /** What is written when the write of "logout" and that of the answer succeed or fail. */
  function Writes(clientFd: int, logoutFd: int, msg: Notice, orderOk: bool, answerOk: bool): seq<(int, Notice)> {
    if logoutFd > 0 && !orderOk then []
    else
      (if logoutFd > 0 then [(logoutFd, LogoutOrder)] else []) + if answerOk then [(clientFd, msg)] else []
  }

  // ---------------------------------------------------------------- the whole trip

  /** Which socket calls succeed: those that bring the request to the login manager, those
      that bring its reply back to the receiver, and the receiver's two writes. */
  datatype Links = Links(there: bool, back: bool, orderOk: bool, answerOk: bool)

  datatype Trip = Trip(t: Tables, used: nat, sent: seq<(int, Notice)>)

  /** One request from the client on `clientFd`. */
  function Serve(t: Tables, server: Server, k: nat, clientFd: int, m: Json, links: Links): Trip {
    var hop := Route(Stamp(m, clientFd), true);
    if !links.there || !hop.Forward? then Trip(t, 0, [])
    else
      var h := Handle(t, server, k, hop.m);
      Trip(h.t, h.used, if links.back && h.reply.Say? then SentFor(clientFd, h.reply.answer, links) else [])
  }

  function SentFor(clientFd: int, a: Answer, links: Links): seq<(int, Notice)> {
    var fd := ReadLogoutFd(a);
    if fd.None? then [] else Writes(clientFd, fd.value, a.msg, links.orderOk, links.answerOk)
  }

  // ---------------------------------------------------------------- what the hops carry

  /** The `extendInfo` found after the receiver: the client's own, if it sent one. */
  function ExtOf(m: Json, clientFd: int): Json {
    var own := Get(m, ExtendInfo);
    if own.Some? then own.value else Obj([(ClientFd, Num(clientFd))])
  }

  /** The `operateType` found after the dispatcher: the client's own, if it sent one. */
  function OpOf(m: Json): Option<Json> {
    var own := Get(m, OperateType);
    if own.Some? then own else Get(m, MessageType)
  }

  /** The call a client's message leads to. */
  function ClientCall(m: Json, clientFd: int): Request {
    if !KnownType(Get(m, MessageType)) then Bad
    else if !OpOf(m).value.Num? then Fault
    else if !KnownType(OpOf(m)) then Bad
    else ReadItems(Get(m, Message), Some(ExtOf(m, clientFd)), OpOf(m).value.n)
  }

  /** What reaches the login manager: the client's own items, and the receiver's fd and the
      dispatcher's operation where the client has not put its own. */
  lemma HopsCarry(m: Json, clientFd: int)
    ensures var hop := Route(Stamp(m, clientFd), true);
            && (hop.Forward? <==> KnownType(Get(m, MessageType)))
            && (hop.Forward? ==>
                  && Get(hop.m, ExtendInfo) == Some(ExtOf(m, clientFd))
                  && Get(hop.m, OperateType) == OpOf(m)
                  && Get(hop.m, Message) == Get(m, Message))
  {
    if m.Obj? {
      var ext := Obj([(ClientFd, Num(clientFd))]);
      StampAdds(m, ext, MessageType);
      StampAdds(m, ext, ExtendInfo);
      StampAdds(m, ext, OperateType);
      StampAdds(m, ext, Message);
      if KnownType(Get(m, MessageType)) {
        var op := Num(Get(m, MessageType).value.n);
        GetAfterAdd(Stamp(m, clientFd), OperateType, op, ExtendInfo);
        GetAfterAdd(Stamp(m, clientFd), OperateType, op, OperateType);
        GetAfterAdd(Stamp(m, clientFd), OperateType, op, Message);
      }
    }
  }

  lemma StampAdds(m: Json, ext: Json, key: Key)
    requires m.Obj?
    ensures Get(Add(m, ExtendInfo, ext), key) ==
            if Get(m, key) == None && key == ExtendInfo then Some(ext) else Get(m, key)
  {
    GetAfterAdd(m, ExtendInfo, ext, key);
  }

  /** A login runs with the receiver's fd if and only if the message brought no `extendInfo`,
      or one with that very fd. */
  lemma CallFdIff(m: Json, clientFd: int)
    requires ClientCall(m, clientFd).Good? && ClientCall(m, clientFd).call.SignIn?
    ensures ClientCall(m, clientFd).call.fd == clientFd <==>
            Get(m, ExtendInfo) == None || Get(Get(m, ExtendInfo).value, ClientFd) == Some(Num(clientFd))
  {
    assert Find([(ClientFd, Num(clientFd))], ClientFd) == Some(Num(clientFd));
  }

  /** The fd the receiver finds when the login manager put `logoutFd` into the reply. */
  function NoticeFd(ext: Json, logoutFd: int): Option<int> {
    if !ext.Obj? then None
    else
      var own := Get(ext, LogoutFd);
      if own.None? then Some(logoutFd) else if own.value.Num? then Some(own.value.n) else None
  }

  /** The receiver reads back the text the login manager put in, and its fd unless the
      message brought one of its own. */
  lemma ReplyCarries(m: Json, ext: Json, logoutFd: int, code: int, msg: Notice)
    requires Get(m, ExtendInfo) == Some(ext)
    ensures var r := Response(m, logoutFd, code, msg);
            r.Say? && r.answer.msg == msg && ReadLogoutFd(r.answer) == NoticeFd(ext, logoutFd)
  {
    if ext.Obj? { GetAfterAdd(ext, LogoutFd, Num(logoutFd), LogoutFd); }
  }

  /** What the client and an evicted terminal are written. */
  function Told(m: Json, clientFd: int, out: CallOut, links: Links): seq<(int, Notice)> {
    if out.Crashed? || !links.back || !OpOf(m).Some? || !OpOf(m).value.Num? then []
    else
      var fd := NoticeFd(ExtOf(m, clientFd), out.logoutFd);
      if fd.None? then []
      else Writes(clientFd, fd.value, Verdict(out, OpOf(m).value.n), links.orderOk, links.answerOk)
  }

  /** A well-formed request runs exactly the call it names; the outcome goes to the client,
      and before it "logout" to the fd found in the reply. */
  lemma ServeRunsCall(t: Tables, server: Server, k: nat, clientFd: int, m: Json, links: Links)
    requires links.there && ClientCall(m, clientFd).Good?
    ensures var s := Exec(t, server, k, ClientCall(m, clientFd).call);
            Serve(t, server, k, clientFd, m, links) == Trip(s.t, s.used, Told(m, clientFd, s.out, links))
  {
    HopsCarry(m, clientFd);
    var s := Exec(t, server, k, ClientCall(m, clientFd).call);
    var hop := Route(Stamp(m, clientFd), true);
    var op := OpOf(m).value.n;
    assert ReadRequest(hop.m, op) == ClientCall(m, clientFd);
    if s.out.Returned? {
      ReplyCarries(hop.m, ExtOf(m, clientFd), s.out.logoutFd,
                   if s.out.ret != 0 then SYSTEM_ERROR else s.out.code, Verdict(s.out, op));
    }
  }

  /** Any other message, and one that is lost on the way, leaves the tables alone. */
  lemma ServeRefuses(t: Tables, server: Server, k: nat, clientFd: int, m: Json, links: Links)
    requires !links.there || !ClientCall(m, clientFd).Good?
    ensures Serve(t, server, k, clientFd, m, links).t == t
  {
    HopsCarry(m, clientFd);
    var hop := Route(Stamp(m, clientFd), true);
    if hop.Forward? && KnownType(OpOf(m)) {
      assert ReadRequest(hop.m, OpOf(m).value.n) == ClientCall(m, clientFd);
    }
  }
}

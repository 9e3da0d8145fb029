/** The event loop with the handlers of the receiver and the dispatcher in it.  A handler that
    returns -1 is what frees a buffer and leaves its fd armed with it, so whether the loop
    stays sound depends on the message. */
module Handlers {
  import opened Basics
  import opened EventLoop
  import Messages

  /** The results of the socket calls of one handler: the request passed on, the reply read,
      and the one or two writes that follow. */
  datatype Calls = Calls(writeOk: bool, readOk: bool, orderOk: bool, answerOk: bool)

  /** The message that a write event hands to the handler. */
  function MessageOf(s: Loop, fd: int, parse: string -> Messages.Json): Messages.Json
    requires Sound(s) && Enabled(s, Write(fd, true, true))
  {
    parse(s.heap[s.armed[fd].buffer].message)
  }

  /** The dispatcher's handler returns 0; a failed assert ends the process instead. */
  predicate DispatcherOk(m: Messages.Json, connected: bool, calls: Calls) {
    Messages.Route(m, connected).Forward? && calls.writeOk && calls.readOk && calls.answerOk
  }

  /** The receiver's handler returns 0, given the reply that it reads. */
  predicate ReceiverOk(reply: Messages.Answer, calls: Calls) {
    && calls.writeOk && calls.readOk
    && Messages.ReadLogoutFd(reply).Some? && (Messages.ReadLogoutFd(reply).value > 0 ==> calls.orderOk)
    && calls.answerOk
  }

  /** The login manager's handler returns 0: it answers every message, and only its own write
      can fail. */
  predicate ManagerOk(calls: Calls) { calls.answerOk }

  /** A message from a client keeps the dispatcher's loop sound if and only if its type is one
      of the three, the login manager is connected, and every socket call and the re-arming
      succeed. */
  lemma DispatcherSoundIff(s: Loop, fd: int, parse: string -> Messages.Json, connected: bool, calls: Calls, ctlOk: bool)
    requires Sound(s) && Enabled(s, Write(fd, true, true))
    requires !Messages.Route(MessageOf(s, fd, parse), connected).Abort?
    ensures var m := MessageOf(s, fd, parse);
            Sound(Step(s, Write(fd, DispatcherOk(m, connected, calls), ctlOk))) <==>
              && Messages.KnownType(Messages.Get(m, Messages.MessageType)) && connected
              && calls.writeOk && calls.readOk && calls.answerOk && ctlOk
  {
    WriteSoundIff(s, fd, DispatcherOk(MessageOf(s, fd, parse), connected, calls), ctlOk);
  }

  /** A client that sends a message without a type leaves the dispatcher with a freed buffer,
      which the next write event of that fd hands out again. */
  lemma UntypedMessageMisuses(s: Loop, fd: int, parse: string -> Messages.Json, connected: bool, calls: Calls)
    requires Sound(s) && Enabled(s, Write(fd, true, true))
    requires Messages.Get(MessageOf(s, fd, parse), Messages.MessageType) == None
    ensures var s' := Step(s, Write(fd, DispatcherOk(MessageOf(s, fd, parse), connected, calls), true));
            !Sound(s') && Enabled(s', Write(fd, true, true)) && Misused(fd) in Step(s', Write(fd, true, true)).log
  {
    DispatcherSoundIff(s, fd, parse, connected, calls, true);
    var s' := Step(s, Write(fd, DispatcherOk(MessageOf(s, fd, parse), connected, calls), true));
    assert Step(s', Write(fd, true, true)).log == s'.log + [Misused(fd)];
  }

  /** The receiver's loop stays sound if and only if the reply holds a `logoutFd` and every
      socket call and the re-arming succeed. */
  lemma ReceiverSoundIff(s: Loop, fd: int, reply: Messages.Answer, calls: Calls, ctlOk: bool)
    requires Sound(s) && Enabled(s, Write(fd, true, true))
    ensures Sound(Step(s, Write(fd, ReceiverOk(reply, calls), ctlOk))) <==>
              && calls.writeOk && calls.readOk && Messages.ReadLogoutFd(reply).Some?
              && (Messages.ReadLogoutFd(reply).value > 0 ==> calls.orderOk) && calls.answerOk && ctlOk
  {
    WriteSoundIff(s, fd, ReceiverOk(reply, calls), ctlOk);
  }

  /** The login manager's loop stays sound whatever it is sent, as long as its process lives
      and its write and the re-arming succeed. */
  lemma ManagerSoundIff(s: Loop, fd: int, calls: Calls, ctlOk: bool)
    requires Sound(s) && Enabled(s, Write(fd, true, true))
    ensures Sound(Step(s, Write(fd, ManagerOk(calls), ctlOk))) <==> calls.answerOk && ctlOk
  {
    WriteSoundIff(s, fd, ManagerOk(calls), ctlOk);
  }
}

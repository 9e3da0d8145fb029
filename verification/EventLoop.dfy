/** The epoll loop shared by the three services: an fd is armed for reading, a read
    allocates a buffer and arms the fd for writing with a pointer to it, and the write
    event handles the message, frees the buffer and arms the fd for reading again. */
module EventLoop {

  datatype Arm = ReadArm | WriteArm(buffer: nat)

  datatype Buffer = Buffer(fd: int, message: string)

  /** What was read from and handed to the handler for an fd, in order; a handler given a
      buffer that was already freed is a misuse. */
  datatype Mark = Got(fd: int, message: string) | Dealt(fd: int, message: string) | Misused(fd: int)

  /** `open` are the accepted sockets, `armed` the epoll set, `heap` the buffers not yet freed,
      `names` the client number under which an fd was first seen. */
  datatype Loop = Loop(open: set<int>, armed: map<int, Arm>, heap: map<nat, Buffer>, nextBuffer: nat,
                       clients: nat, names: map<int, nat>, log: seq<Mark>)

  /** An event with the results of the calls its handler makes. */
  datatype Event =
    | Accept(fd: int, ctlOk: bool)
    | ReadFails(fd: int)
    | ReadCloses(fd: int)
    | ReadData(fd: int, message: string, ctlOk: bool)
    | Write(fd: int, handlerOk: bool, ctlOk: bool)

  const MAX_MESSAGE_LEN := 10240

  const EMPTY := Loop({}, map[], map[], 0, 0, map[], [])

  /** When the kernel can deliver an event: a new fd is not in use, and a readiness event
      comes for an fd armed that way. */
  predicate Enabled(s: Loop, e: Event) {
    match e
    case Accept(fd, _) => fd !in s.open && fd !in s.armed
    case ReadFails(fd) => fd in s.armed && s.armed[fd].ReadArm?
    case ReadCloses(fd) => fd in s.armed && s.armed[fd].ReadArm?
    case ReadData(fd, message, _) => fd in s.armed && s.armed[fd].ReadArm? && message != ""
    case Write(fd, _, _) => fd in s.armed && s.armed[fd].WriteArm?
  }

  function Step(s: Loop, e: Event): Loop
    requires Enabled(s, e)
  {
    match e
    case Accept(fd, ctlOk) =>
      if !ctlOk then s.(open := s.open + {fd})
      else s.(open := s.open + {fd}, armed := s.armed[fd := ReadArm], clients := s.clients + 1,
              names := if fd in s.names then s.names else s.names[fd := s.clients + 1])
    case ReadFails(fd) =>
      s.(heap := s.heap[s.nextBuffer := Buffer(fd, "")], nextBuffer := s.nextBuffer + 1)
    case ReadCloses(fd) =>
      s.(open := s.open - {fd}, armed := s.armed - {fd}, nextBuffer := s.nextBuffer + 1)
    case ReadData(fd, message, ctlOk) =>
      var p := s.nextBuffer;
      s.(heap := s.heap[p := Buffer(fd, message)], nextBuffer := p + 1, log := s.log + [Got(fd, message)],
         armed := if ctlOk then s.armed[fd := WriteArm(p)] else s.armed)
    case Write(fd, handlerOk, ctlOk) =>
      var p := s.armed[fd].buffer;
      if p !in s.heap then s.(log := s.log + [Misused(fd)])
      else
        var b := s.heap[p];
        s.(heap := s.heap - {p}, log := s.log + [Dealt(b.fd, b.message)],
           armed := if handlerOk && ctlOk then s.armed[b.fd := ReadArm] else s.armed)
  }

  // ---------------------------------------------------------------- what a run keeps

  datatype Waiting = Nothing | Message(message: string)

  /** The message read from an fd and not yet handled, according to the log. */
  ghost function Pending(log: seq<Mark>, fd: int): Waiting {
    if log == [] then Nothing
    else
      var last := log[|log| - 1];
      if last.fd != fd then Pending(log[..|log| - 1], fd)
      else if last.Got? then Message(last.message) else Nothing
  }

  /** Every message is handled exactly once, before the next one is read from its fd. */
  ghost predicate Alternates(log: seq<Mark>) {
    forall i :: 0 <= i < |log| ==> InTurn(log[..i], log[i])
  }

  ghost predicate InTurn(log: seq<Mark>, m: Mark) {
    !m.Misused? && Pending(log, m.fd) == if m.Got? then Nothing else Message(m.message)
  }

  /** An fd armed for writing owns one allocated buffer, which holds its last read; an fd
      armed for reading has nothing waiting; no buffer has two owners. */
  ghost predicate Sound(s: Loop) {
    && (forall p :: p in s.heap ==> p < s.nextBuffer)
    && (forall fd :: fd in s.armed && s.armed[fd].WriteArm? ==>
          s.armed[fd].buffer in s.heap && s.heap[s.armed[fd].buffer].fd == fd)
    && (forall fd :: Pending(s.log, fd) == Held(s, fd))
    && Alternates(s.log)
  }

  /** The message in the buffer an fd is armed with. */
  ghost function Held(s: Loop, fd: int): Waiting {
    if fd in s.armed && s.armed[fd].WriteArm? && s.armed[fd].buffer in s.heap
    then Message(s.heap[s.armed[fd].buffer].message) else Nothing
  }

  /** Every allocated buffer is the one its fd is armed with, and every open socket is watched. */
  ghost predicate NoLeak(s: Loop) {
    && s.open == s.armed.Keys
    && forall p :: p in s.heap ==> s.heap[p].fd in s.armed && s.armed[s.heap[p].fd] == WriteArm(p)
  }

  /** The calls the loop does not recover from all succeed. */
  predicate Succeeds(e: Event) {
    match e
    case ReadData(_, _, ctlOk) => ctlOk
    case Write(_, handlerOk, ctlOk) => handlerOk && ctlOk
    case _ => true
  }

  lemma PendingAppend(log: seq<Mark>, m: Mark, fd: int)
    ensures Pending(log + [m], fd) ==
            if m.fd != fd then Pending(log, fd) else if m.Got? then Message(m.message) else Nothing
  {
    assert (log + [m])[..|log|] == log;
  }

  lemma AlternatesAppend(log: seq<Mark>, m: Mark)
    requires Alternates(log)
    requires InTurn(log, m)
    ensures Alternates(log + [m])
  {
    var all := log + [m];
    forall i | 0 <= i < |all|
      ensures InTurn(all[..i], all[i])
    {
      assert i < |log| ==> all[..i] == log[..i];
      assert i == |log| ==> all[..i] == log;
    }
  }

  /** A read leaves the buffers of the other fds alone. */
  lemma ReadOwns(s: Loop, fd: int, message: string, g: int)
    requires Sound(s) && Enabled(s, ReadData(fd, message, true))
    ensures var s' := Step(s, ReadData(fd, message, true));
            && (g in s'.armed && s'.armed[g].WriteArm? ==>
                  s'.armed[g].buffer in s'.heap && s'.heap[s'.armed[g].buffer].fd == g)
            && Held(s', g) == if g == fd then Message(message) else Held(s, g)
  {
  }

  lemma ReadKeepsSound(s: Loop, fd: int, message: string)
    requires Sound(s) && Enabled(s, ReadData(fd, message, true))
    ensures Sound(Step(s, ReadData(fd, message, true)))
  {
    var s' := Step(s, ReadData(fd, message, true));
    assert Pending(s.log, fd) == Held(s, fd);
    AlternatesAppend(s.log, Got(fd, message));
    forall g ensures Pending(s'.log, g) == Held(s', g) {
      PendingAppend(s.log, Got(fd, message), g);
      ReadOwns(s, fd, message, g);
    }
    forall g | g in s'.armed && s'.armed[g].WriteArm?
      ensures s'.armed[g].buffer in s'.heap && s'.heap[s'.armed[g].buffer].fd == g
    {
      ReadOwns(s, fd, message, g);
    }
  }

  lemma ReadLosesMessage(s: Loop, fd: int, message: string)
    requires Enabled(s, ReadData(fd, message, false))
    ensures !Sound(Step(s, ReadData(fd, message, false)))
  {
    PendingAppend(s.log, Got(fd, message), fd);
  }

  /** A handled write frees the buffer of its own fd only. */
  lemma WriteOwns(s: Loop, fd: int, g: int)
    requires Sound(s) && Enabled(s, Write(fd, true, true))
    ensures var s' := Step(s, Write(fd, true, true));
            && (g in s'.armed && s'.armed[g].WriteArm? ==>
                  s'.armed[g].buffer in s'.heap && s'.heap[s'.armed[g].buffer].fd == g)
            && Held(s', g) == if g == fd then Nothing else Held(s, g)
  {
    assert s.heap[s.armed[fd].buffer].fd == fd;
  }

  lemma WriteKeepsSound(s: Loop, fd: int)
    requires Sound(s) && Enabled(s, Write(fd, true, true))
    ensures Sound(Step(s, Write(fd, true, true)))
  {
    var s' := Step(s, Write(fd, true, true));
    var m := Dealt(fd, s.heap[s.armed[fd].buffer].message);
    assert Pending(s.log, fd) == Held(s, fd);
    AlternatesAppend(s.log, m);
    forall g ensures Pending(s'.log, g) == Held(s', g) {
      PendingAppend(s.log, m, g);
      WriteOwns(s, fd, g);
    }
    forall g | g in s'.armed && s'.armed[g].WriteArm?
      ensures s'.armed[g].buffer in s'.heap && s'.heap[s'.armed[g].buffer].fd == g
    {
      WriteOwns(s, fd, g);
    }
  }

  lemma WriteSoundIff(s: Loop, fd: int, handlerOk: bool, ctlOk: bool)
    requires Sound(s) && Enabled(s, Write(fd, handlerOk, ctlOk))
    ensures Sound(Step(s, Write(fd, handlerOk, ctlOk))) <==> handlerOk && ctlOk
  {
    if handlerOk && ctlOk {
      WriteKeepsSound(s, fd);
    } else {
      var s' := Step(s, Write(fd, handlerOk, ctlOk));
      assert s'.armed[fd] == s.armed[fd] && s.armed[fd].buffer !in s'.heap;
    }
  }

  /** Exactly which events keep the loop sound.  A failed handler (or a failed re-arming)
      leaves the fd armed with a pointer to memory already freed; a read whose re-arming
      fails loses its message. */
  lemma StepSoundIff(s: Loop, e: Event)
    requires Sound(s) && Enabled(s, e)
    ensures Sound(Step(s, e)) <==> Succeeds(e)
  {
    match e
    case Accept(fd, ctlOk) => QuietKeepsSound(s, e);
    case ReadFails(fd) => QuietKeepsSound(s, e);
    case ReadCloses(fd) => QuietKeepsSound(s, e);
    case ReadData(fd, message, ctlOk) =>
      if ctlOk { ReadKeepsSound(s, fd, message); } else { ReadLosesMessage(s, fd, message); }
    case Write(fd, handlerOk, ctlOk) => WriteSoundIff(s, fd, handlerOk, ctlOk);
  }

  /** Connections, closes and read errors move no message. */
  lemma QuietKeepsSound(s: Loop, e: Event)
    requires Sound(s) && Enabled(s, e) && !e.ReadData? && !e.Write?
    ensures Sound(Step(s, e))
  {
    var s' := Step(s, e);
    forall g ensures Held(s', g) == Held(s, g) && Pending(s'.log, g) == Pending(s.log, g) {
      assert Pending(s.log, g) == Held(s, g);
    }
  }

  /** A read that failed, or whose fd was not re-armed, leaves its buffer to nobody; a
      connection that is not registered leaves its socket to nobody. */
  predicate Drops(e: Event) { e.ReadFails? || (e.ReadData? && !e.ctlOk) || (e.Accept? && !e.ctlOk) }

  /** Exactly which events leak: a read error returns without freeing, a failed re-arming
      leaves nothing that points to the buffer, and a failed registration does not close. */
  lemma StepLeakIff(s: Loop, e: Event)
    requires Sound(s) && NoLeak(s) && Enabled(s, e)
    ensures NoLeak(Step(s, e)) <==> !Drops(e)
  {
    var s' := Step(s, e);
    match e
    case ReadFails(fd) =>
      assert s.nextBuffer in s'.heap && s'.armed[fd] == ReadArm;
    case ReadData(fd, _, ctlOk) =>
      assert s.nextBuffer in s'.heap && s'.heap[s.nextBuffer].fd == fd;
    case Write(fd, _, _) =>
      assert s.heap[s.armed[fd].buffer].fd == fd;
    case _ =>
  }

  /** The events of a run, each enabled where it occurs. */
  ghost predicate IsRun(s: Loop, events: seq<Event>)
    decreases |events|
  {
    events == [] || (Enabled(s, events[0]) && IsRun(Step(s, events[0]), events[1..]))
  }

  ghost function After(s: Loop, events: seq<Event>): Loop
    requires IsRun(s, events)
    decreases |events|
  {
    if events == [] then s else After(Step(s, events[0]), events[1..])
  }

  /** Over every run whose handler and epoll_ctl calls succeed, with connections, read
      errors and closes in any order, the loop stays sound; without the events that drop
      something it leaks nothing. */
  lemma {:induction false} RunSound(s: Loop, events: seq<Event>)
    requires Sound(s) && IsRun(s, events)
    requires forall e :: e in events ==> Succeeds(e)
    ensures Sound(After(s, events))
    ensures NoLeak(s) && (forall e :: e in events ==> !Drops(e)) ==> NoLeak(After(s, events))
    decreases |events|
  {
    if events != [] {
      assert events[0] in events;
      StepSoundIff(s, events[0]);
      if NoLeak(s) { StepLeakIff(s, events[0]); }
      RunSound(Step(s, events[0]), events[1..]);
    }
  }

  lemma EmptySound()
    ensures Sound(EMPTY) && NoLeak(EMPTY)
  {
  }

  /** So it is from the start: no handler ever gets a freed buffer, and without dropping events
      the buffers allocated are those waiting to be handled. */
  lemma EveryRunSound(events: seq<Event>)
    requires IsRun(EMPTY, events) && forall e :: e in events ==> Succeeds(e)
    ensures Sound(After(EMPTY, events)) && forall m :: m in After(EMPTY, events).log ==> !m.Misused?
    ensures (forall e :: e in events ==> !Drops(e)) ==> NoLeak(After(EMPTY, events))
  {
    EmptySound();
    RunSound(EMPTY, events);
    var log := After(EMPTY, events).log;
    forall m | m in log ensures !m.Misused? {
      var i :| 0 <= i < |log| && log[i] == m;
      assert InTurn(log[..i], log[i]);
    }
  }

  // ---------------------------------------------------------------- runs that go wrong

  /** One client whose message was read and waits to be handled. */
  function Waits(): Loop { Step(Step(EMPTY, Accept(3, true)), ReadData(3, "m", true)) }

  lemma WaitsSound()
    ensures Sound(Waits()) && Waits().armed == map[3 := WriteArm(0)] && 0 in Waits().heap
  {
    EmptySound();
    QuietKeepsSound(EMPTY, Accept(3, true));
    ReadKeepsSound(Step(EMPTY, Accept(3, true)), 3, "m");
  }

  /** A handler that fails leaves its fd armed with a freed buffer, and the next write event
      hands that buffer to the handler again. */
  lemma FailedHandlerMisuses()
    ensures Sound(Waits())
    ensures var s := Step(Waits(), Write(3, false, true));
            !Sound(s) && Enabled(s, Write(3, true, true)) && Misused(3) in Step(s, Write(3, true, true)).log
  {
    WaitsSound();
    WriteSoundIff(Waits(), 3, false, true);
    var s := Step(Waits(), Write(3, false, true));
    assert s.log + [Misused(3)] == Step(s, Write(3, true, true)).log;
  }

  /** A failed read leaks its buffer. */
  lemma FailedReadLeaks()
    ensures var s := Step(EMPTY, Accept(3, true)); NoLeak(s) && !NoLeak(Step(s, ReadFails(3)))
  {
    EmptySound();
    QuietKeepsSound(EMPTY, Accept(3, true));
    StepLeakIff(Step(EMPTY, Accept(3, true)), ReadFails(3));
  }

  // ---------------------------------------------------------------- the names of the clients

  /** Names are numbers handed out one by one, so no two fds share one; every fd that is watched
      or has a buffer has one. */
  ghost predicate Numbered(s: Loop) {
    && (forall fd :: fd in s.names ==> 1 <= s.names[fd] <= s.clients)
    && (forall fd, g :: fd in s.names && g in s.names && fd != g ==> s.names[fd] != s.names[g])
    && s.armed.Keys <= s.names.Keys
    && forall p :: p in s.heap ==> s.heap[p].fd in s.names
  }

  lemma AcceptNumbered(s: Loop, fd: int, ctlOk: bool)
    requires Numbered(s) && Enabled(s, Accept(fd, ctlOk))
    ensures Numbered(Step(s, Accept(fd, ctlOk)))
  {
  }

  lemma WriteNumbered(s: Loop, fd: int, handlerOk: bool, ctlOk: bool)
    requires Numbered(s) && Enabled(s, Write(fd, handlerOk, ctlOk))
    ensures Numbered(Step(s, Write(fd, handlerOk, ctlOk)))
  {
    var p := s.armed[fd].buffer;
    assert p in s.heap ==> s.heap[p].fd in s.names;
  }

  lemma ReadNumbered(s: Loop, e: Event)
    requires Numbered(s) && Enabled(s, e) && !e.Accept? && !e.Write?
    ensures Numbered(Step(s, e))
  {
    assert e.fd in s.names;
  }

  lemma StepNumbered(s: Loop, e: Event)
    requires Numbered(s) && Enabled(s, e)
    ensures Numbered(Step(s, e))
  {
    match e
    case Accept(fd, ctlOk) => AcceptNumbered(s, fd, ctlOk);
    case Write(fd, handlerOk, ctlOk) => WriteNumbered(s, fd, handlerOk, ctlOk);
    case _ => ReadNumbered(s, e);
  }

  lemma {:induction false} RunNumbered(s: Loop, events: seq<Event>)
    requires Numbered(s) && IsRun(s, events)
    ensures Numbered(After(s, events))
    decreases |events|
  {
    if events != [] {
      StepNumbered(s, events[0]);
      RunNumbered(Step(s, events[0]), events[1..]);
    }
  }

  predicate Registers(e: Event) { e.Accept? && e.ctlOk }

  function Registrations(events: seq<Event>): nat
    decreases |events|
  {
    if events == [] then 0 else (if Registers(events[0]) then 1 else 0) + Registrations(events[1..])
  }

  predicate FirstOf(events: seq<Event>, i: nat, fd: int) {
    i < |events| && events[i] == Accept(fd, true) && Accept(fd, true) !in events[..i]
  }

  /** Every registered connection counts as a client, and an fd keeps the number of its first
      registration for good. */
  lemma {:induction false} RunNames(s: Loop, events: seq<Event>, fd: int)
    requires IsRun(s, events)
    ensures After(s, events).clients == s.clients + Registrations(events)
    ensures fd in s.names ==> fd in After(s, events).names && After(s, events).names[fd] == s.names[fd]
    ensures fd !in s.names && Accept(fd, true) !in events ==> fd !in After(s, events).names
    ensures forall i: nat :: fd !in s.names && FirstOf(events, i, fd) ==>
              fd in After(s, events).names
              && After(s, events).names[fd] == s.clients + Registrations(events[..i]) + 1
    decreases |events|
  {
    if events != [] {
      var s', rest := Step(s, events[0]), events[1..];
      RunNames(s', rest, fd);
      forall i: nat | fd !in s.names && FirstOf(events, i, fd)
        ensures fd in After(s, events).names
        ensures After(s, events).names[fd] == s.clients + Registrations(events[..i]) + 1
      {
        if i > 0 { FirstInRest(events, i, fd); }
      }
    }
  }

  lemma FirstInRest(events: seq<Event>, i: nat, fd: int)
    requires i > 0 && FirstOf(events, i, fd)
    ensures events[0] != Accept(fd, true) && FirstOf(events[1..], i - 1, fd)
    ensures Registrations(events[..i]) ==
            (if Registers(events[0]) then 1 else 0) + Registrations(events[1..][..i - 1])
  {
    assert events[..i][0] == events[0] && events[..i][1..] == events[1..][..i - 1];
  }

  lemma {:induction false} FirstExists(events: seq<Event>, fd: int) returns (i: nat)
    requires Accept(fd, true) in events
    ensures FirstOf(events, i, fd)
  {
    var last := |events| - 1;
    if Accept(fd, true) in events[..last] {
      i := FirstExists(events[..last], fd);
      assert events[..last][..i] == events[..i];
    } else {
      assert events == events[..last] + [events[last]];
      i := last;
    }
  }

  /** From the start: as many clients as registrations, no number given to two fds, and a number
      for exactly the fds that were registered. */
  lemma EveryRunNames(events: seq<Event>, fd: int)
    requires IsRun(EMPTY, events)
    ensures Numbered(After(EMPTY, events)) && After(EMPTY, events).clients == Registrations(events)
    ensures fd in After(EMPTY, events).names <==> Accept(fd, true) in events
  {
    RunNumbered(EMPTY, events);
    RunNames(EMPTY, events, fd);
    if Accept(fd, true) in events { var i := FirstExists(events, fd); }
  }

  // ---------------------------------------------------------------- the class

  class Daemon {
    var open: set<int>
    var armed: map<int, Arm>
    var heap: map<nat, Buffer>
    var nextBuffer: nat
    var clients: nat
    var names: map<int, nat>
    ghost var log: seq<Mark>

    ghost function State(): Loop
      reads this
    {
      Loop(open, armed, heap, nextBuffer, clients, names, log)
    }

    constructor ()
      ensures State() == EMPTY
    {
      open, armed, heap, nextBuffer, clients, names, log := {}, map[], map[], 0, 0, map[], [];
    }

    method Malloc(fd: int) returns (p: nat)
      modifies this`heap, this`nextBuffer
      ensures p == old(nextBuffer) && nextBuffer == p + 1 && heap == old(heap)[p := Buffer(fd, "")]
    {
      p := nextBuffer;
      heap := heap[p := Buffer(fd, "")];
      nextBuffer := p + 1;
    }

    method DealConnectRequest(accepted: bool, fd: int, ctlOk: bool) returns (ret: int)
      requires accepted ==> Enabled(State(), Accept(fd, ctlOk))
      modifies this
      ensures State() == if accepted then Step(old(State()), Accept(fd, ctlOk)) else old(State())
      ensures ret == if accepted && ctlOk then 0 else -1
    {
      if !accepted { return -1; }
      open := open + {fd};
      if !ctlOk { return -1; }
      armed := armed[fd := ReadArm];
      clients := clients + 1;
      if fd !in names { names := names[fd := clients]; }
      ret := 0;
    }

    /** `received` is the text read, or nothing with `count` saying error or end of file.  A
        message that fills the buffer has its terminating NUL written past the end. */
    method DealReadEvent(fd: int, count: int, received: string, ctlOk: bool) returns (ret: int, overran: bool)
      requires fd in armed && armed[fd].ReadArm?
      requires count <= MAX_MESSAGE_LEN && (count > 0 ==> count == |received|)
      requires forall p :: p in heap ==> p < nextBuffer
      modifies this
      ensures State() == Step(old(State()), if count < 0 then ReadFails(fd) else if count == 0 then ReadCloses(fd)
                                            else ReadData(fd, received, ctlOk))
      ensures ret == if count < 0 then -1 else 0
      ensures overran <==> count == MAX_MESSAGE_LEN
    {
      overran := false;
      var p := Malloc(fd);
      if count < 0 {
        return -1, overran;
      } else if count == 0 {
        open := open - {fd};
        armed := armed - {fd};
        heap := heap - {p};
        assert heap == old(heap);
      } else {
        heap := heap[p := heap[p].(message := received)];
        overran := count >= MAX_MESSAGE_LEN;   // where the terminating NUL goes
        log := log + [Got(fd, received)];
        if ctlOk { armed := armed[fd := WriteArm(p)]; }
      }
      ret := 0;
    }

    /** Where the buffer was freed before, anything may be handed to the handler. */
    method DealWriteEvent(fd: int, handlerOk: bool, ctlOk: bool) returns (ret: int)
      requires Enabled(State(), Write(fd, handlerOk, ctlOk))
      modifies this
      ensures State() == Step(old(State()), Write(fd, handlerOk, ctlOk))
      ensures old(armed[fd].buffer in heap) ==> ret == if handlerOk && ctlOk then 0 else -1
    {
      var p := armed[fd].buffer;
      if p !in heap {
        log := log + [Misused(fd)];
        ret := *;
        return;
      }
      var b := heap[p];
      log := log + [Dealt(b.fd, b.message)];
      heap := heap - {p};
      if !handlerOk { return -1; }
      if !ctlOk { return -1; }
      armed := armed[b.fd := ReadArm];
      ret := 0;
    }
  }
}

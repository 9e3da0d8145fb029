/** Requests and replies on the connection between two services.  The asking side writes a
    request and then reads once; nothing in a reply says which request it answers, so a reply
    that was not read is what the next request reads. */
module Replies {
  import opened Basics
  import opened LoginTables
  import opened LoginSpec
  import opened LoginRuns
  import opened Messages

  /** Whether a reply to the request is written, and whether the read succeeds once there is
      something to read. */
  datatype Turn = Turn(says: bool, readOk: bool)

  /** `unread` are the replies in the connection, each named by its request; `taken` is what
      each request so far has read; a read with nothing to come blocks for good. */
  datatype Line = Line(unread: seq<nat>, taken: seq<Option<nat>>, blocked: bool)

  function Step(l: Line, turn: Turn): Line {
    var i := |l.taken|;
    var u := l.unread + if turn.says then [i] else [];
    if l.blocked then l
    else if !turn.readOk then Line(u, l.taken + [None], false)
    else if u == [] then l.(blocked := true)
    else Line(u[1..], l.taken + [Some(u[0])], false)
  }

  function Run(turns: seq<Turn>): Line {
    if turns == [] then Line([], [], false) else Step(Run(turns[..|turns| - 1]), turns[|turns| - 1])
  }

  /** Every request that read a reply has read its own. */
  ghost predicate Matched(l: Line) { forall i :: 0 <= i < |l.taken| ==> l.taken[i] in {None, Some(i)} }

  /** A reply that was written and not read by its own request. */
  predicate Missed(turn: Turn) { turn.says && !turn.readOk }

  ghost predicate NoneMissed(turns: seq<Turn>) { forall i :: 0 <= i < |turns| ==> !Missed(turns[i]) }

  lemma {:induction false} RunShape(turns: seq<Turn>)
    requires !Run(turns).blocked
    ensures |Run(turns).taken| == |turns|
    ensures forall i :: 0 <= i < |Run(turns).unread| ==> Run(turns).unread[i] < |turns|
  {
    if turns != [] { RunShape(turns[..|turns| - 1]); }
  }

  lemma NoneMissedStep(turns: seq<Turn>)
    requires turns != []
    ensures NoneMissed(turns) <==> NoneMissed(turns[..|turns| - 1]) && !Missed(turns[|turns| - 1])
  {
    assert turns == turns[..|turns| - 1] + [turns[|turns| - 1]];
  }

  lemma MatchedStep(l: Line, turn: Turn)
    requires !Step(l, turn).blocked
    ensures Matched(Step(l, turn)) <==> Matched(l) && Step(l, turn).taken[|l.taken|] in {None, Some(|l.taken|)}
  {
    var l' := Step(l, turn);
    assert forall i :: 0 <= i < |l.taken| ==> l'.taken[i] == l.taken[i];
  }

  /** While replies are matched, the connection is empty exactly when none was missed. */
  lemma {:induction false} UnreadIff(turns: seq<Turn>)
    requires !Run(turns).blocked && Matched(Run(turns))
    ensures Run(turns).unread == [] <==> NoneMissed(turns)
  {
    if turns != [] {
      var init, turn := turns[..|turns| - 1], turns[|turns| - 1];
      RunShape(init);
      MatchedStep(Run(init), turn);
      NoneMissedStep(turns);
      UnreadIff(init);
    }
  }

  /** Without a missed reply everything stays matched. */
  lemma {:induction false} NoneMissedMatched(turns: seq<Turn>)
    requires !Run(turns).blocked && NoneMissed(turns)
    ensures Matched(Run(turns)) && Run(turns).unread == []
  {
    if turns != [] {
      var init, turn := turns[..|turns| - 1], turns[|turns| - 1];
      RunShape(init);
      NoneMissedStep(turns);
      NoneMissedMatched(init);
      MatchedStep(Run(init), turn);
    }
  }

  /** A request that is answered and whose read succeeds. */
  const ANSWERED := Turn(true, true)

  /** All requests so far and the next one that is answered read their own replies if and only
      if no read of a reply that was written has failed. */
  lemma StaysMatchedIff(turns: seq<Turn>)
    requires !Run(turns).blocked
    ensures Matched(Run(turns + [ANSWERED])) <==> NoneMissed(turns)
  {
    var all := turns + [ANSWERED];
    assert all[..|turns|] == turns;
    RunShape(turns);
    MatchedStep(Run(turns), ANSWERED);
    if NoneMissed(turns) { NoneMissedMatched(turns); }
    if Matched(Run(turns)) {
      UnreadIff(turns);
    }
  }

  /** With nothing left unread, a request blocks if and only if it is not answered. */
  lemma BlocksIff(turns: seq<Turn>, turn: Turn)
    requires !Run(turns).blocked && NoneMissed(turns) && turn.readOk
    ensures Run(turns + [turn]).blocked <==> !turn.says
  {
    assert (turns + [turn])[..|turns|] == turns;
    NoneMissedMatched(turns);
  }

  /** The reply to the first request is not read; the second request reads it. */
  lemma SecondReadsFirst()
    ensures Run([Turn(true, false), ANSWERED]).taken == [None, Some(0)]
  {
    var first := [Turn(true, false)];
    assert first[..0] == [] && Run(first) == Line([0], [None], false);
    assert [Turn(true, false), ANSWERED][..1] == first;
  }

  // ---------------------------------------------------------------- which requests are answered

  /** A reply to the client's message is written. */
  predicate Says(t: Tables, server: Server, k: nat, clientFd: int, m: Json) {
    var hop := Route(Stamp(m, clientFd), true);
    hop.Forward? && Handle(t, server, k, hop.m).reply.Say?
  }

  /** A message is answered if and only if its type is known, so that the dispatcher passes it
      on, the operation is a number, no item has the wrong type, and the call it names does
      not end the login manager. */
  lemma SaysIff(t: Tables, server: Server, k: nat, clientFd: int, m: Json)
    ensures Says(t, server, k, clientFd, m) <==>
              && KnownType(Get(m, MessageType)) && OpOf(m).value.Num?
              && (KnownType(OpOf(m)) ==>
                    var r := ClientCall(m, clientFd);
                    !r.Fault? && (r.Good? ==> Exec(t, server, k, r.call).out.Returned?))
  {
    HopsCarry(m, clientFd);
    var hop := Route(Stamp(m, clientFd), true);
    if hop.Forward? && KnownType(OpOf(m)) {
      assert ReadRequest(hop.m, OpOf(m).value.n) == ClientCall(m, clientFd);
    }
  }
}

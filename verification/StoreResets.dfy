/**
 Resetting sequence numbers: every occasion on which a session restarts at 1, what it has then sent
 and counted, and when two sessions that log on with ResetSeqNumFlag are in step.
 */
module StoreResets {
  import opened Messages
  import opened Schedules
  import opened SessionSpec
  import opened SessionInvariants
  import opened GapRecovery
  import opened Handshake

  /** Both counters stand at 1, and nothing is saved, numbered or delivered. */
  ghost predicate Restarted(s: State) {
    && s.o.nextSender == 1 && s.i.nextTarget == 1 && s.o.saved == map[]
    && s.o.base == 1 && s.o.numbered == [] && s.i.delivered == []
  }

  /** The counters and the saved messages are as they were. */
  ghost predicate StoreKept(s: State, r: State) {
    r.o.nextSender == s.o.nextSender && r.i.nextTarget == s.i.nextTarget && r.o.saved == s.o.saved
  }

  /** A spawned session has no connection and nothing left over, and its timers are in order. */
  lemma SpawnedIsIdle(sender: SeqNum, target: SeqNum, saved: map<nat, Msg>, created: int, interval: real, now: real, utc: int)
    ensures var s := Spawned(sender, target, saved, created, interval, now, utc);
            && Idle(s) && !s.link.pendingLogon && s.o.wire == [] && s.i.testRequests == 0 && !s.rec.lastWasQueued
            && s.o.nextSender == sender && s.i.nextTarget == target && s.o.saved == saved && s.clock.created == created
  {
  }

  // ----- the schedule -----

  /** A tick that finds the store stamped in another occurrence says goodbye, drops the connection and
      restarts. */
  lemma DueTickRestarts(c: Config, s: State, e: Timed)
    requires StashKeyed(s.rec.stash) && e.event.ScheduleTick?
    requires !c.schedule.nonStop && IsInRange(c.schedule, e.utc) && !IsInSameRange(c.schedule, e.utc, s.clock.created)
    ensures var r := Apply(c, s, e);
            && Restarted(r) && r.clock.created == e.utc && !r.link.connected
            && (s.link.connected ==> r.rec.stash == map[] && r.rec.resendRange.None?)
            && |r.o.wire| == |s.o.wire| + (if s.link.connected && LoggedOn(s.link) && !s.link.sentLogout then 1 else 0)
  {
    hide IsInRange, IsInSameRange;
  }

  /** Any other tick leaves the store alone, unless it drops a connection whose end resets, and except for
      the number a Logon or Logout takes. */
  lemma OtherTickKeeps(c: Config, s: State, e: Timed)
    requires StashKeyed(s.rec.stash) && e.event.ScheduleTick?
    requires c.schedule.nonStop || !IsInRange(c.schedule, e.utc) || IsInSameRange(c.schedule, e.utc, s.clock.created)
    ensures var r := Apply(c, s, e);
            || (r.i.nextTarget == s.i.nextTarget && r.clock.epoch == s.clock.epoch && r.clock.created == s.clock.created)
            || (c.resetOnDisconnect && s.link.connected && Restarted(r))
  {
    hide IsInRange, IsInSameRange, Send;
  }

  // ----- the end of a connection -----

  /** The peer closes: the connection is gone, and the store restarts exactly if configured. */
  lemma ClosingRestartsIff(c: Config, s: State, e: Timed)
    requires StashKeyed(s.rec.stash) && e.event.PeerClosed? && s.link.connected
    ensures var r := Apply(c, s, e);
            && !r.link.connected && r.o.wire == s.o.wire
            && (if c.resetOnDisconnect then Restarted(r) && r.clock.created == e.utc && r.clock.epoch == s.clock.epoch + 1
                else StoreKept(s, r) && r.clock == s.clock.(now := e.now, utc := e.utc))
  {
  }

  /** A Logout from the peer is answered unless we sent one, is counted, and ends the connection; the store
      restarts exactly if configured. */
  lemma {:induction false} LogoutRestartsIff(c: Config, s: State, e: Timed, f: Inbound)
    requires StashKeyed(s.rec.stash) && s.link.connected && LoggedOn(s.link)
    requires e.event == Receive(Parsed(f)) && f.msg.kind.Logout? && Passes(c, f.checks)
    ensures var r := Apply(c, s, e);
            && !r.link.connected
            && |r.o.wire| == |s.o.wire| + (if s.link.sentLogout then 0 else 1)
            && (!s.link.sentLogout ==> r.o.wire[|s.o.wire|] == Plain(Logout).(seqNum := Some(s.o.nextSender as nat)))
            && (if c.resetOnLogout || c.resetOnDisconnect then Restarted(r) && r.clock.created == e.utc
                else r.i.nextTarget == s.i.nextTarget + 1 && r.clock.epoch == s.clock.epoch)
  {
  }

  // ----- logging on -----

  /** The Logon an initiator sends, with the number it gets. */
  function NumberedLogon(c: Config, s: State): Msg {
    Plain(Logon).(
    seqNum := Some(if c.resetOnLogon then 1 else s.o.nextSender as nat),
    heartBtInt := Some(WholeSeconds(s.clock.heartBtInt)),
    resetFlag := c.sendResetFlag || (c.fix41Plus && c.resetOnLogon),
    nextExpected := if !c.nextExpected then None else if c.resetOnLogon then Some(1) else Some(s.i.nextTarget as nat))
  }

  /** An initiator attaches: it restarts exactly if configured, and then logs on with the next number, or
      waits for its window. */
  lemma {:induction false} AttachRestartsIff(c: Config, s: State, e: Timed)
    requires StashKeyed(s.rec.stash) && e.event.Attach? && c.initiator && !s.link.connected
    ensures var r := Apply(c, s, e);
            var start: nat := if c.resetOnLogon then 1 else s.o.nextSender;
            && r.link.connected && r.i.nextTarget == (if c.resetOnLogon then 1 else s.i.nextTarget)
            && (c.resetOnLogon ==> r.clock.created == e.utc && r.i.delivered == [])
            && (if !IsInRange(c.logonSchedule, e.utc)
                then r.link.pendingLogon && r.o.nextSender == start && r.o.wire == s.o.wire
                     && r.o.saved == (if c.resetOnLogon then map[] else s.o.saved)
                else
                  && r.o.nextSender == start + 1 && r.o.wire == s.o.wire + [NumberedLogon(c, s)]
                  && r.link.sentLogon && r.link.sentReset == (s.link.sentReset || NumberedLogon(c, s).resetFlag)
                  && (c.resetOnLogon ==>
                        && r.o.numbered == [NumberedLogon(c, s)]
                        && r.o.saved == if c.persist then map[1 := NumberedLogon(c, s)] else map[]))
  {
    hide IsInRange, SendLogon, Send;
    var q := Clocked(s, e);
    var s1 := q.(link := q.link.(connected := true), o := q.o.(lastSent := q.clock.now), i := q.i.(lastReceived := q.clock.now, testRequests := 0));
    var s2 := if c.resetOnLogon then ResetStore(s1) else s1;
    LogonGoesOut(c, s2);
    assert AsNumbered(c, s2) == NumberedLogon(c, s);
  }

  /** The Logon as the present counters make it. */
  function AsNumbered(c: Config, s: State): Msg {
    Plain(Logon).(
    seqNum := Some(s.o.nextSender as nat),
    heartBtInt := Some(WholeSeconds(s.clock.heartBtInt)),
    resetFlag := c.sendResetFlag || (c.fix41Plus && c.resetOnLogon && s.o.nextSender == 1 && s.i.nextTarget == 1),
    nextExpected := if c.nextExpected then Some(s.i.nextTarget as nat) else None)
  }

  lemma LogonGoesOut(c: Config, s: State)
    requires s.link.connected
    ensures var r := SendLogon(c, s);
            var m := AsNumbered(c, s);
            && r == s.(o := r.o, link := s.link.(sentReset := s.link.sentReset || m.resetFlag, sentLogon := true))
            && r.o.nextSender == s.o.nextSender + 1 && r.o.wire == s.o.wire + [m] && r.o.numbered == s.o.numbered + [m]
            && r.o.saved == (if c.persist then s.o.saved[s.o.nextSender as nat := m] else s.o.saved)
  {
  }

  /** An acceptor to which a connection has just been attached. */
  ghost predicate Fresh(c: Config, s: State) {
    && !c.initiator && s.rec.stash == map[] && s.rec.resendRange.None?
    && s.link == Link(true, false, false, false, false, false, s.link.pendingLogon)
  }

  /** A Logon that makes the acceptor restart, because it says so or because the acceptor is configured to. */
  ghost predicate Restarts(c: Config, e: Timed, f: Inbound) {
    && e.event == Receive(Parsed(f)) && f.msg.kind.Logon? && Passes(c, f.checks)
    && (f.msg.resetFlag || c.resetOnLogon) && f.msg.seqNum.Some? && f.msg.seqNum.value >= 1
    && (f.msg.nextExpected.Some? ==> f.msg.nextExpected.value >= 1)
  }

  /** The reply of an acceptor that has restarted. */
  function FirstReply(c: Config, s: State, f: Inbound): Msg {
    Plain(Logon).(
    seqNum := Some(1),
    heartBtInt := Some(WholeSeconds(NegotiatedInterval(c, s.clock.heartBtInt, f.msg.heartBtInt))),
    resetFlag := f.msg.resetFlag && c.nextExpected,
    nextExpected := if c.nextExpected then Some(2) else None)
  }

  /** The peer announces that it expects more than a restarted session has. */
  predicate ExpectsTooMuch(c: Config, m: Msg) { c.nextExpected && m.nextExpected.Some? && m.nextExpected.value > 1 }

  /** The acceptor's turn: everything from before is forgotten before the Logon is looked at. The reply is
      number 1; a Logon number 1 is counted, and with any other number 1 stays expected. A peer that
      expects old messages is turned away. */
  lemma {:induction false} AcceptorRestarts(c: Config, s: State, e: Timed, f: Inbound)
    requires Fresh(c, s) && Restarts(c, e, f)
    ensures var r := Apply(c, s, e);
            if ExpectsTooMuch(c, f.msg) then !r.link.connected
            else
              && LoggedOn(r.link) && r.link.connected && r.i.delivered == [] && r.clock.created == e.utc
              && |r.o.wire| > |s.o.wire| && r.o.wire[|s.o.wire|] == FirstReply(c, s, f)
              && r.i.nextTarget == (if f.msg.seqNum.value == 1 then 2 else 1)
              && (f.msg.seqNum.value == 1 ==>
                    && r.o.nextSender == 2 && r.o.wire == s.o.wire + [FirstReply(c, s, f)] && r.o.numbered == [FirstReply(c, s, f)]
                    && r.o.saved == (if c.persist then map[1 := FirstReply(c, s, f)] else map[])
                    && r.rec.stash == map[] && r.rec.resendRange.None?)
  {
    hide Settle, AcceptLogon, Disconnect;
    var q := Clocked(s, e);
    var v := RestartedFor(c, q, f);
    LogonRestarts(c, q, f);
    RestartedLogon(c, v, f);
    var h := AcceptLogon(c, v, f);
    if h.dropped {
      DisconnectIdles(c, h.s);
    } else {
      SettleIsQuiet(c, h.s);
      if f.msg.seqNum.value > 1 {
        SettleKeepsWire(c, h.s);
      }
    }
  }

  /** The state in which the Logon is accepted. */
  function RestartedFor(c: Config, s: State, f: Inbound): State {
    var r := if f.msg.resetFlag then s.(link := s.link.(receivedReset := true)) else s;
    Heard(ResetStore(r), f.msg)
  }

  lemma {:induction false} LogonRestarts(c: Config, s: State, f: Inbound)
    requires Fresh(c, s) && f.msg.kind.Logon? && Passes(c, f.checks) && (f.msg.resetFlag || c.resetOnLogon)
    requires f.msg.seqNum.Some? && f.msg.seqNum.value >= 1
    ensures var v := RestartedFor(c, s, f);
            && Process(c, s, f) == AcceptLogon(c, v, f)
            && Restarted(v) && v.o.wire == s.o.wire && v.rec == s.rec && v.clock.created == s.clock.utc
            && v.clock.heartBtInt == s.clock.heartBtInt && v.link == s.link.(receivedReset := f.msg.resetFlag)
  {
    hide AcceptLogon, Send;
  }

  lemma {:induction false} RestartedLogon(c: Config, s: State, f: Inbound)
    requires Restarted(s) && !c.initiator && s.link == Link(true, false, false, false, false, f.msg.resetFlag, s.link.pendingLogon)
    requires s.rec.stash == map[] && s.rec.resendRange.None?
    requires f.msg.kind.Logon? && f.msg.seqNum.Some? && f.msg.seqNum.value >= 1
    requires f.msg.nextExpected.Some? ==> f.msg.nextExpected.value >= 1
    ensures var h := AcceptLogon(c, s, f);
            && h.s.link.connected && h.s.clock.created == s.clock.created
            && (h.dropped <==> ExpectsTooMuch(c, f.msg))
            && (!h.dropped ==>
                  && LoggedOn(h.s.link) && h.s.i.delivered == [] && StashKeyed(h.s.rec.stash)
                  && |h.s.o.wire| > |s.o.wire| && h.s.o.wire[|s.o.wire|] == FirstReply(c, s, f)
                  && h.s.i.nextTarget == (if f.msg.seqNum.value == 1 then 2 else 1) && h.s.i.nextTarget !in h.s.rec.stash
                  && (f.msg.seqNum.value == 1 ==>
                        && h.s.o.nextSender == 2 && h.s.o.wire == s.o.wire + [FirstReply(c, s, f)] && h.s.o.numbered == [FirstReply(c, s, f)]
                        && h.s.o.saved == (if c.persist then map[1 := FirstReply(c, s, f)] else map[])
                        && h.s.rec == s.rec))
  {
    hide ResendAnswer, SequenceLogon, NegotiatedInterval, WholeSeconds;
    var s1 := s.(link := s.link.(receivedLogon := true));
    RestartedIsSequenced(c, AnswerLogon(c, s1, f.msg), f);
  }

  /** After a restart only number 1 is in sequence. */
  lemma RestartedIsSequenced(c: Config, s: State, f: Inbound)
    requires s.i.nextTarget == 1 && s.rec.stash == map[] && f.msg.kind.Logon? && f.msg.seqNum.Some? && f.msg.seqNum.value >= 1
    ensures var h := SequenceLogon(c, s, f);
            && !h.dropped
            && (f.msg.seqNum.value == 1 ==> h.s == IncrTarget(s))
            && (f.msg.seqNum.value > 1 ==>
                  && h.s.i == s.i && h.s.link == s.link && h.s.clock == s.clock && s.o.wire <= h.s.o.wire
                  && h.s.rec.stash.Keys == {f.msg.seqNum.value} && StashKeyed(h.s.rec.stash))
  {
    hide SendResendRequest;
    RequestKeepsWire(c);
  }

  lemma RequestKeepsWire(c: Config)
    ensures forall s: State, begin: nat, received: nat | received >= 1 ::
              var r := SendResendRequest(c, s, begin, received);
              s.o.wire <= r.o.wire && r.i == s.i && r.link == s.link && r.clock == s.clock && r.rec.stash == s.rec.stash
  {
    hide Send;
    forall s: State, m: Msg ensures s.o.wire <= Send(c, s, m, false).o.wire {
      SendKeepsWire(c, s, m);
    }
  }

  lemma SendKeepsWire(c: Config, s: State, m: Msg)
    ensures s.o.wire <= Send(c, s, m, false).o.wire
  {
  }

  lemma {:induction false} SettleKeepsWire(c: Config, s: State)
    requires StashKeyed(s.rec.stash) && s.i.nextTarget !in s.rec.stash
    ensures s.o.wire <= Settle(c, s).o.wire
  {
    hide SendResendRequest;
    RequestKeepsWire(c);
  }

  // ----- both sides -----

  /** An initiator that has sent a Logon with ResetSeqNumFlag and waits for the answer. */
  ghost predicate AwaitsReply(c: Config, s: State) {
    && c.initiator && s.rec.stash == map[] && s.rec.resendRange.None?
    && s.link == Link(true, false, true, false, true, false, s.link.pendingLogon)
  }

  /** The reply, number 1, is counted by an initiator that expects 1, and ends the connection of one that
      expects more. It never makes the initiator restart. */
  lemma {:induction false} ReplyIsHeard(c: Config, s: State, e: Timed, f: Inbound)
    requires AwaitsReply(c, s) && e.event == Receive(Parsed(f)) && Passes(c, f.checks)
    requires f.msg.kind.Logon? && f.msg.seqNum == Some(1) && !f.msg.possDup
    requires f.msg.nextExpected.Some? ==> f.msg.nextExpected.value <= s.o.nextSender
    ensures var r := Apply(c, s, e);
            if s.i.nextTarget > 1 then !r.link.connected
            else
              && LoggedOn(r.link) && r.link.connected && r.i.nextTarget == 2 && r.o.nextSender == s.o.nextSender
              && r.rec.stash == map[] && r.rec.resendRange.None?
              && (f.msg.nextExpected == Some(s.o.nextSender as nat) || !c.nextExpected || f.msg.nextExpected.None? ==> r.o == s.o)
  {
    hide Settle, Send, ResendAnswer;
    var h := Process(c, Clocked(s, e), f);
    if s.i.nextTarget == 1 {
      assert !h.dropped && h.s.rec == s.rec && h.s.i.nextTarget == 2;
      SettleIsQuiet(c, h.s);
    }
  }

  /** Two idle sessions connect. The initiator's Logon carries ResetSeqNumFlag and reaches the acceptor, and
      the first thing the acceptor sends reaches the initiator. */
  ghost predicate LogsOnWithReset(
    ci: Config, i: State, ei: Timed, ca: Config, a: State, ea: Timed, er: Timed, f: Inbound, eh: Timed, g: Inbound) {
    && ci.initiator && Idle(i) && ei.event.Attach? && IsInRange(ci.logonSchedule, ei.utc)
    && !ca.initiator && Idle(a) && ea.event.Attach?
    && er.event == Receive(Parsed(f)) && Passes(ca, f.checks)
    && Transmitted(i, Run(ci, i, [ei])) == [f.msg] && f.msg.resetFlag
    && var sent := Transmitted(Run(ca, a, [ea]), Run(ca, a, [ea, er]));
    && eh.event == Receive(Parsed(g)) && Passes(ci, g.checks) && sent != [] && g.msg == sent[0]
  }

  /** Both are logged on, and each expects what the other will send next. */
  ghost predicate InStep(i: State, a: State) {
    && i.link.connected && LoggedOn(i.link) && a.link.connected && LoggedOn(a.link)
    && i.i.nextTarget == a.o.nextSender && a.i.nextTarget == i.o.nextSender
  }

  lemma AcceptorAttached(c: Config, s: State, e: Timed)
    requires !c.initiator && Idle(s) && e.event.Attach?
    ensures Fresh(c, Apply(c, s, e)) && Apply(c, s, e).o.wire == s.o.wire
  {
  }

  lemma {:induction false} InitiatorAttached(c: Config, s: State, e: Timed)
    requires c.initiator && Idle(s) && e.event.Attach? && IsInRange(c.logonSchedule, e.utc) && NumberedLogon(c, s).resetFlag
    ensures AwaitsReply(c, Apply(c, s, e))
  {
    hide IsInRange;
  }

  /** The flag is set exactly if configured, or if the session restarts and the version knows the flag. */
  lemma {:induction false} LogonReaches(ci: Config, i: State, ei: Timed, m: Msg)
    requires ci.initiator && Idle(i) && ei.event.Attach? && IsInRange(ci.logonSchedule, ei.utc)
    requires Transmitted(i, Run(ci, i, [ei])) == [m]
    ensures m == NumberedLogon(ci, i)
  {
    hide Apply, IsInRange;
    RunOne(ci, i, [ei]);
    AttachRestartsIff(ci, i, ei);
  }

  /** Logging on with ResetSeqNumFlag brings two sessions into step, whatever their counters were, if and only if
      the initiator itself starts at 1: because it is configured to restart, or because it stood
      at 1 anyway. An initiator that only sets the flag makes the acceptor forget, but not itself. */
  lemma {:induction false} ResetLogonInStepIff(
    ci: Config, i: State, ei: Timed, ca: Config, a: State, ea: Timed, er: Timed, f: Inbound, eh: Timed, g: Inbound)
    requires LogsOnWithReset(ci, i, ei, ca, a, ea, er, f, eh, g)
    ensures InStep(Run(ci, i, [ei, eh]), Run(ca, a, [ea, er]))
            <==> ci.resetOnLogon || (i.o.nextSender == 1 && i.i.nextTarget == 1)
  {
    hide Apply, Run, IsInRange, Passes, NumberedLogon, FirstReply;
    RunOne(ci, i, [ei]);
    RunOne(ca, a, [ea]);
    var i1, a1 := Apply(ci, i, ei), Apply(ca, a, ea);
    LogonReaches(ci, i, ei, f.msg);
    AttachRestartsIff(ci, i, ei);
    InitiatorAttached(ci, i, ei);
    AcceptorAttached(ca, a, ea);
    TwoEvents(ci, i, ei, eh);
    TwoEvents(ca, a, ea, er);
    LogonNumbers(ci, i);
    AcceptorRestarts(ca, a1, er, f);
    if !ExpectsTooMuch(ca, f.msg) {
      ReplyNumbers(ca, a1, f);
      ReplyIsHeard(ci, i1, eh, g);
    }
  }

  lemma {:induction false} TwoEvents(c: Config, s: State, a: Timed, b: Timed)
    requires StashKeyed(s.rec.stash)
    ensures StashKeyed(Apply(c, s, a).rec.stash) && Run(c, s, [a, b]) == Apply(c, Apply(c, s, a), b)
  {
    hide Apply;
    RunOne(c, s, [a]);
    assert [a] + [b] == [a, b];
    RunJoin(c, s, [a], [b]);
    RunOne(c, Run(c, s, [a]), [b]);
  }

  lemma LogonNumbers(c: Config, s: State)
    ensures var m := NumberedLogon(c, s);
            && m.kind.Logon? && m.seqNum == Some(if c.resetOnLogon then 1 else s.o.nextSender as nat)
            && m.nextExpected == (if !c.nextExpected then None else if c.resetOnLogon then Some(1) else Some(s.i.nextTarget as nat))
  {
  }

  lemma ReplyNumbers(c: Config, s: State, f: Inbound)
    ensures var m := FirstReply(c, s, f);
            m.kind.Logon? && m.seqNum == Some(1) && !m.possDup && (m.nextExpected.Some? ==> m.nextExpected.value == 2)
  {
  }
}

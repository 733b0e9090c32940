/**
 What a message, a timer, a tick of the schedule or a command causes, seen from outside: what goes onto the
 wire, what is counted, and whether the connection stays. The session is logged on and level,
 so that nothing else happens at the same time.
 */
module Reactions {
  import opened Messages
  import opened Schedules
  import opened SessionSpec
  import opened SessionInvariants
  import opened GapRecovery
  import opened Duplicates

  /** Logged on, with nothing stashed and nothing asked for. */
  ghost predicate AtEase(s: State) {
    s.link.connected && LoggedOn(s.link) && s.rec.stash == map[] && s.rec.resendRange.None?
  }

  ghost predicate Gets(e: Timed, f: Inbound) { e.event == Receive(Parsed(f)) }

  ghost predicate Due(s: State, m: Msg) { m.seqNum == Some(s.i.nextTarget as nat) }

  /** The connection stays; exactly these messages went out, numbered from the next number on; the target
      number moved on by `counted`; nothing was delivered. */
  ghost predicate Answers(s: State, r: State, kinds: seq<Kind>, counted: nat) {
    && r.link.connected && r.i.nextTarget == s.i.nextTarget + counted && r.i.delivered == s.i.delivered
    && AtWire(s, r, kinds) && r.rec.stash == map[] && r.rec.resendRange.None?
  }

  /** The connection is gone, and exactly these messages went out before. */
  ghost predicate Ends(s: State, r: State, kinds: seq<Kind>) { !r.link.connected && AtWire(s, r, kinds) }

  ghost predicate AtWire(s: State, r: State, kinds: seq<Kind>) {
    && |r.o.wire| == |s.o.wire| + |kinds| && s.o.wire <= r.o.wire
    && forall j | 0 <= j < |kinds| :: r.o.wire[|s.o.wire| + j] == SentAs(kinds[j], s.o.nextSender + j)
  }

  /** Nothing stashed, nothing asked for: what follows a message changes nothing. */
  lemma {:induction false} SettlesAtEase(c: Config, s: State)
    requires s.rec.stash == map[] && s.rec.resendRange.None?
    ensures var r := Settle(c, s); r.link == s.link && r.o == s.o && r.i == s.i && r.clock == s.clock && r.rec.stash == map[] && r.rec.resendRange.None?
  {
    hide SendResendRequest;
    SettleIsQuiet(c, s);
  }

  // ----- faulty messages -----

  /** What the checks before the number find, in the order they are made. */
  datatype Fault = WrongVersion | BadContent | NoSendingTime | Stale | WrongPeer | NoNumber | Sound

  function FaultOf(c: Config, f: Inbound): Fault {
    var k := f.checks;
    if !k.beginStringOk then WrongVersion
    else if !k.dictionaryOk then BadContent
    else if k.sendingTime.Missing? then NoSendingTime
    else if c.checkLatency && k.sendingTime.Stale? then Fault.Stale
    else if c.checkCompIds && !k.compIdsOk then WrongPeer
    else if f.msg.seqNum.None? then NoNumber
    else Sound
  }

  /** Faulty heartbeats, rejects and application messages. Each is rejected and, if its number was due,
      counted; a wrong peer or a stale time is followed by a Logout; a wrong version is counted
      whatever its number and ends the connection. None is delivered. */
  lemma {:induction false} FaultIsAnswered(c: Config, s: State, e: Timed, f: Inbound)
    requires AtEase(s) && Gets(e, f) && (f.msg.kind.App? || f.msg.kind.Heartbeat? || f.msg.kind.Reject? || f.msg.kind.TestRequest?)
    ensures var r := Apply(c, s, e);
            var counted := if Due(s, f.msg) then 1 else 0;
            match FaultOf(c, f)
            case WrongVersion => Ends(s, r, [Logout]) && (!c.resetOnDisconnect ==> r.i.nextTarget == s.i.nextTarget + 1)
            case BadContent => Answers(s, r, [Reject], counted)
            case NoSendingTime => Answers(s, r, [Reject], counted)
            case Stale => Answers(s, r, [Reject, Logout], counted)
            case WrongPeer => Answers(s, r, [Reject, Logout], counted)
            case NoNumber => Answers(s, r, [Reject], 0)
            case Sound => true
  {
    hide Settle, SendReject, InitiateLogout, Process;
    var q := Clocked(s, e);
    var h := Process(c, q, f);
    FaultIsProcessed(c, q, f);
    RejectGoesOut(c, q, f.msg);
    if FaultOf(c, f).WrongVersion? {
      LogoutIsSent(c, IncrTarget(q));
    } else if FaultOf(c, f) != Sound {
      SettlesAtEase(c, h.s);
    }
  }

  /** A Reject, and a Reject followed by a Logout. */
  lemma {:induction false} RejectGoesOut(c: Config, s: State, m: Msg)
    requires AtEase(s) && !m.kind.Logon? && !m.kind.SequenceReset?
    ensures var counted := if Due(s, m) then 1 else 0;
            && Answers(s, SendReject(c, s, m), [Reject], counted) && AtEase(SendReject(c, s, m))
            && Answers(s, InitiateLogout(c, SendReject(c, s, m)), [Reject, Logout], counted)
            && AtEase(InitiateLogout(c, SendReject(c, s, m)))
  {
    var t := if Due(s, m) then IncrTarget(s) else s;
    var r := SendReject(c, s, m);
    assert r == Send(c, t, Plain(Reject), false);
    assert r.o.wire == s.o.wire + [SentAs(Reject, s.o.nextSender)] && r.o.nextSender == s.o.nextSender + 1;
    hide Send, SendReject;
    LogoutIsSent(c, r);
    assert InitiateLogout(c, r).o.wire == s.o.wire + [SentAs(Reject, s.o.nextSender)] + [SentAs(Logout, s.o.nextSender + 1)];
  }

  lemma {:induction false} FaultIsProcessed(c: Config, s: State, f: Inbound)
    requires AtEase(s) && (f.msg.kind.App? || f.msg.kind.Heartbeat? || f.msg.kind.Reject? || f.msg.kind.TestRequest?)
    ensures var h := Process(c, s, f);
            var rejected := SendReject(c, s, f.msg);
            match FaultOf(c, f)
            case WrongVersion => h == Handled(InitiateLogout(c, IncrTarget(s)), true)
            case BadContent => h == Handled(rejected, false)
            case NoSendingTime => h == Handled(rejected, false)
            case Stale => h == Handled(InitiateLogout(c, rejected), false)
            case WrongPeer => h == Handled(InitiateLogout(c, rejected), false)
            case NoNumber => h == Handled(rejected, false)
            case Sound => true
  {
    hide SendReject, InitiateLogout, Send;
  }

  /** An application message that is due is delivered, and the application's verdict is carried out:
      accepted and counted; rejected and counted; answered as unsupported, unless the application
      refuses to send that, and counted; or counted and followed by the end of the connection. */
  lemma {:induction false} VerdictIsCarriedOut(c: Config, s: State, e: Timed, f: Inbound)
    requires AtEase(s) && Gets(e, f) && f.msg.kind.App? && FaultOf(c, f).Sound? && Due(s, f.msg)
    ensures var r := Apply(c, s, e);
            var seen := s.(i := s.i.(delivered := s.i.delivered + [Delivery(f.msg, s.i.nextTarget)]));
            match f.checks.callback
            case Accept => Answers(seen, r, [], 1)
            case RejectMessage => Answers(seen, r, [Reject], 1)
            case Unsupported =>
              if c.fix42Plus then Answers(seen, r, if f.checks.replyVetoed then [] else [App("j")], 1)
              else Answers(seen, r, [Reject], 1)
            case RejectLogon => Ends(s, r, [Logout]) && (!c.resetOnDisconnect ==> r.i.nextTarget == s.i.nextTarget + 1)
  {
    hide Settle, Process, InitiateLogout;
    var q := Clocked(s, e);
    var h := Process(c, q, f);
    if f.checks.callback.RejectLogon? {
      assert h == Handled(InitiateLogout(c, IncrTarget(Heard(q, f.msg))), true) by { RefusalIsProcessed(c, q, f); }
      LogoutIsSent(c, IncrTarget(Heard(q, f.msg)));
    } else {
      VerdictIsProcessed(c, q, f);
      SettlesAtEase(c, h.s);
    }
  }

  lemma RefusalIsProcessed(c: Config, s: State, f: Inbound)
    requires AtEase(s) && f.msg.kind.App? && FaultOf(c, f).Sound? && Due(s, f.msg) && f.checks.callback.RejectLogon?
    ensures Process(c, s, f) == Handled(InitiateLogout(c, IncrTarget(Heard(s, f.msg))), true)
  {
    hide Send, InitiateLogout, SendReject;
  }

  lemma {:induction false} VerdictIsProcessed(c: Config, s: State, f: Inbound)
    requires AtEase(s) && f.msg.kind.App? && FaultOf(c, f).Sound? && Due(s, f.msg) && !f.checks.callback.RejectLogon?
    ensures var h := Process(c, s, f);
            var seen := s.(i := s.i.(delivered := s.i.delivered + [Delivery(f.msg, s.i.nextTarget)]));
            !h.dropped && match f.checks.callback
                          case Accept => Answers(seen, h.s, [], 1)
                          case RejectMessage => Answers(seen, h.s, [Reject], 1)
                          case Unsupported =>
                            if c.fix42Plus then Answers(seen, h.s, if f.checks.replyVetoed then [] else [App("j")], 1)
                            else Answers(seen, h.s, [Reject], 1)
                          case RejectLogon => true
  {
  }

  // ----- administrative messages in sequence -----

  /** Another Logon on a connection that is logged on, without any reset going on. */
  predicate SecondLogon(c: Config, s: State, f: Inbound) {
    && f.msg.kind.Logon? && !f.msg.resetFlag && !s.link.sentReset && !s.link.receivedReset && !s.link.sentLogout
    && (c.initiator || !c.resetOnLogon) && (!c.checkLatency || f.checks.sendingTime.Fresh?)
  }

  /** Heartbeats and Rejects are counted; a TestRequest is answered by a Heartbeat and counted; a further
      Logon ends the connection without a word. The peer counts as alive. */
  lemma {:induction false} AdminIsAnswered(c: Config, s: State, e: Timed, f: Inbound)
    requires AtEase(s) && Gets(e, f) && FaultOf(c, f).Sound? && f.checks.callback.Accept? && Due(s, f.msg)
    ensures var r := Apply(c, s, e);
            && (f.msg.kind.Heartbeat? || f.msg.kind.Reject? ==> Answers(s, r, [], 1) && r.i.lastReceived == e.now && r.i.testRequests == 0)
            && (f.msg.kind.TestRequest? ==> Answers(s, r, [Heartbeat], 1) && r.i.lastReceived == e.now && r.i.testRequests == 0)
            && (SecondLogon(c, s, f) ==> Ends(s, r, []))
  {
    hide Settle, AcceptLogon;
    var q := Clocked(s, e);
    if f.msg.kind.Heartbeat? || f.msg.kind.Reject? || f.msg.kind.TestRequest? {
      AdminIsProcessed(c, q, f);
      SettlesAtEase(c, Process(c, q, f).s);
    }
  }

  lemma {:induction false} AdminIsProcessed(c: Config, s: State, f: Inbound)
    requires AtEase(s) && FaultOf(c, f).Sound? && f.checks.callback.Accept? && Due(s, f.msg)
    requires f.msg.kind.Heartbeat? || f.msg.kind.Reject? || f.msg.kind.TestRequest?
    ensures var h := Process(c, s, f);
            && !h.dropped && h.s.i.lastReceived == s.clock.now && h.s.i.testRequests == 0
            && Answers(s, h.s, if f.msg.kind.TestRequest? then [Heartbeat] else [], 1)
  {
  }

  /** A ResendRequest is counted exactly if it was due. */
  lemma {:induction false} RequestCountsIffDue(c: Config, s: State, e: Timed, f: Inbound)
    requires AtEase(s) && Gets(e, f) && f.msg.kind.ResendRequest? && Passes(c, f.checks)
    ensures Apply(c, s, e).i.nextTarget == s.i.nextTarget + if Due(s, f.msg) then 1 else 0
  {
    hide Settle, ResendAnswer, RequestedEnd;
    var q := Clocked(s, e);
    SettlesAtEase(c, Process(c, q, f).s);
  }

  /** A SequenceReset without GapFillFlag is obeyed whatever its own number: forwards it moves the target and
      supersedes what is stashed below, backwards it is rejected and not counted, and to where we are
      it does nothing. */
  lemma {:induction false} ResetModeMoves(c: Config, s: State, f: Inbound)
    requires s.link.connected && LoggedOn(s.link) && f.msg.kind.SequenceReset? && !f.msg.gapFill && Passes(c, f.checks)
    ensures var h := Process(c, s, f);
            && !h.dropped && h.s.i.delivered == s.i.delivered && h.s.link == s.link
            && (f.msg.newSeqNo.None? || f.msg.newSeqNo.value == s.i.nextTarget ==> h.s.i.nextTarget == s.i.nextTarget && h.s.o == s.o && h.s.rec == s.rec)
            && (f.msg.newSeqNo.Some? && f.msg.newSeqNo.value > s.i.nextTarget ==>
                  && h.s.i.nextTarget == f.msg.newSeqNo.value && h.s.o == s.o
                  && (forall k :: k in h.s.rec.stash <==> k in s.rec.stash && k >= f.msg.newSeqNo.value)
                  && (forall k | k in h.s.rec.stash :: h.s.rec.stash[k] == s.rec.stash[k]))
            && (f.msg.newSeqNo.Some? && f.msg.newSeqNo.value < s.i.nextTarget ==>
                  h.s.i.nextTarget == s.i.nextTarget && AtWire(s, h.s, [Reject]) && h.s.rec == s.rec)
  {
  }

  // ----- requests -----

  /** Without a limit a gap is asked for in one open-ended request, in the notation of the version, which
      every peer answers up to its last message. */
  lemma OpenRequestAsksForAll(c: Config, s: State, begin: nat, received: nat, peer: Outgoing)
    requires s.link.connected && c.maxResend == 0 && begin < received
    ensures var r := SendResendRequest(c, s, begin, received);
            var m := Plain(ResendRequest).(seqNum := Some(s.o.nextSender as nat), beginSeqNo := Some(begin), endSeqNo := Some(if c.fix42Plus then 0 else 999_999));
            && r.o.wire == s.o.wire + [m] && RequestedEnd(peer, m) == peer.nextSender - 1
            && r.rec.resendRange == Some(Range(begin, received - 1, received - 1))
  {
  }

  /** While a range is outstanding, a further message ahead of the gap asks again exactly if configured. */
  lemma {:induction false} AsksAgainIff(c: Config, s: State, f: Inbound)
    requires s.link.connected && LoggedOn(s.link) && s.rec.resendRange.Some? && f.msg.kind.App? && FaultOf(c, f).Sound? && TooHigh(s, f.msg)
    ensures var h := Process(c, s, f);
            && !h.dropped && h.s.i == s.i && h.s.rec.stash == s.rec.stash[f.msg.seqNum.value := f.(checks := f.later)]
            && |h.s.o.wire| == |s.o.wire| + (if c.redundantRequests then 1 else 0)
            && |h.s.rec.asked| == |s.rec.asked| + (if c.redundantRequests then 1 else 0)
            && (!c.redundantRequests ==> h.s.rec.resendRange == s.rec.resendRange && h.s.o == s.o)
  {
  }

  // ----- timers -----

  /** What a timer that fires does, in the order of precedence: a logout that is not answered in time, or a
      logon that does not come in time, ends the connection; then 2.4 intervals of silence do, with a
      Logout if configured; 1.2 intervals of silence bring one TestRequest; and one interval without
      sending, while no TestRequest is outstanding, brings a Heartbeat. */
  lemma {:induction false} TimerActs(c: Config, s: State, e: Timed)
    requires StashKeyed(s.rec.stash) && e.event.Deadline? && s.link.connected && s.clock.heartBtInt > 0.0
    ensures var r := Apply(c, s, e);
            var (quiet, idle, h) := (e.now - s.i.lastReceived, e.now - s.o.lastSent, s.clock.heartBtInt);
            if s.link.sentLogout then (if idle >= c.logoutTimeout then Ends(s, r, []) else r.o == s.o && r.link == s.link && r.i == s.i)
            else if !s.link.receivedLogon then (if quiet >= c.logonTimeout then Ends(s, r, []) else r.o == s.o && r.link == s.link && r.i == s.i)
            else if quiet >= 2.4 * h then Ends(s, r, if c.logoutBeforeTimeout then [Logout] else [])
            else if s.link.sentLogon && s.i.testRequests == 0 && quiet >= 1.2 * h then
              AtWire(s, r, [TestRequest]) && r.i.testRequests == 1 && r.link == s.link
            else if s.link.sentLogon && s.i.testRequests == 0 && idle >= h then AtWire(s, r, [Heartbeat]) && r.i == s.i && r.link == s.link
            else s.link.sentLogon && s.i.testRequests <= 1 ==> r.o == s.o && r.i == s.i && r.link == s.link
  {
    hide Send, InitiateLogout;
    var q := Clocked(s, e);
    LogoutIsSent(c, q);
    if s.link.sentLogon {
      AdminGoesOut(c, q, Heartbeat);
      AdminGoesOut(c, q.(i := q.i.(testRequests := q.i.testRequests + 1)), TestRequest);
    }
  }

  lemma AdminGoesOut(c: Config, s: State, k: Kind)
    requires s.link.connected && s.link.sentLogon && IsAdmin(k)
    ensures var r := Send(c, s, Plain(k), false);
            r == s.(o := r.o) && r.o.wire == s.o.wire + [SentAs(k, s.o.nextSender)] && r.o.nextSender == s.o.nextSender + 1
  {
  }

  /** An interval of 0 turns the timers of a logged-on session off. */
  lemma {:induction false} ZeroIntervalIsSilent(c: Config, s: State, e: Timed)
    requires StashKeyed(s.rec.stash) && e.event.Deadline? && s.link.connected && LoggedOn(s.link) && !s.link.sentLogout && s.clock.heartBtInt == 0.0
    ensures NextDeadline(c, s).None? && Apply(c, s, e).o == s.o && Apply(c, s, e).link == s.link && Apply(c, s, e).i == s.i
  {
  }

  // ----- the schedule -----

  /** Outside the session window a connection is ended, with a Logout if logged on. */
  lemma {:induction false} OutsideWindowEnds(c: Config, s: State, e: Timed)
    requires StashKeyed(s.rec.stash) && e.event.ScheduleTick? && s.link.connected
    requires !c.schedule.nonStop && !IsInRange(c.schedule, e.utc)
    ensures Ends(s, Apply(c, s, e), if LoggedOn(s.link) && !s.link.sentLogout then [Logout] else [])
  {
    hide IsInRange, IsInSameRange;
  }

  /** Inside it, in the occurrence of the store: outside the logon window a logged-on session says Logout and
      waits; inside, a Logon that was put off is sent; otherwise nothing happens. A session without a
      window never does anything here. */
  lemma {:induction false} InsideWindowActs(c: Config, s: State, e: Timed)
    requires StashKeyed(s.rec.stash) && e.event.ScheduleTick? && s.link.connected
    requires c.schedule.nonStop || (IsInRange(c.schedule, e.utc) && IsInSameRange(c.schedule, e.utc, s.clock.created))
    ensures var r := Apply(c, s, e);
            var open := IsInRange(c.logonSchedule, e.utc);
            && r.link.connected && r.i == s.i && r.rec == s.rec
            && (if c.schedule.nonStop then r.o == s.o && r.link == s.link
                else if LoggedOn(s.link) && !s.link.sentLogout && !open then AtWire(s, r, [Logout]) && r.link.sentLogout
                else if s.link.pendingLogon && !s.link.sentLogon && open then
                  && |r.o.wire| == |s.o.wire| + 1 && r.o.wire[|s.o.wire|].kind.Logon? && r.o.wire[|s.o.wire|].seqNum == Some(s.o.nextSender as nat)
                  && r.link.sentLogon && !r.link.pendingLogon
                else r.o == s.o && r.link == s.link)
  {
    hide IsInRange, IsInSameRange, InitiateLogout, SendLogon, Send;
    var q := Clocked(s, e);
    LogoutIsSent(c, q);
    LogonIsSent(c, q.(link := q.link.(pendingLogon := false)));
  }

  lemma LogonIsSent(c: Config, s: State)
    requires s.link.connected
    ensures var r := SendLogon(c, s);
            && r == s.(o := r.o, link := s.link.(sentReset := r.link.sentReset, sentLogon := true)) && |r.o.wire| == |s.o.wire| + 1
            && r.o.wire[|s.o.wire|].kind.Logon? && r.o.wire[|s.o.wire|].seqNum == Some(s.o.nextSender as nat)
  {
  }

  // ----- commands, connections, garbled bytes -----

  /** Logging out, changing the counters, a second connection, and bytes that are no message. */
  lemma {:induction false} CommandActs(c: Config, s: State, e: Timed)
    requires StashKeyed(s.rec.stash) && s.link.connected
    ensures var r := Apply(c, s, e);
            && (e.event.Logoff? && LoggedOn(s.link) ==> AtWire(s, r, [Logout]) && r.link == s.link.(sentLogout := true) && r.i == s.i)
            && (e.event.Logoff? && !LoggedOn(s.link) ==> r.o == s.o && r.link == s.link && r.i == s.i)
            && (e.event.ChangeSeqNums? ==>
                  && r.o.nextSender == (if e.event.sender.Some? then e.event.sender.value else s.o.nextSender)
                  && r.i.nextTarget == (if e.event.target.Some? then e.event.target.value else s.i.nextTarget)
                  && r.o.saved == s.o.saved && r.o.wire == s.o.wire && r.link == s.link && r.clock.epoch == s.clock.epoch + 1)
            && (e.event.Attach? ==> r.o == s.o && r.link == s.link && r.i == s.i && r.rec == s.rec)
            && (e.event.Receive? && e.event.frame.Garbled? ==>
                  if e.event.frame.looksLikeLogon && !s.link.receivedLogon then Ends(s, r, [])
                  else r.o == s.o && r.link == s.link && r.i == s.i && r.rec == s.rec)
            && (e.event.Receive? && e.event.frame.Parsed? && e.event.frame.inbound.msg.kind.Untyped? && AtEase(s) ==> Answers(s, r, [], 0))
  {
    hide IsInRange, Settle;
    if e.event.Receive? && e.event.frame.Parsed? && e.event.frame.inbound.msg.kind.Untyped? && AtEase(s) {
      SettlesAtEase(c, Clocked(s, e));
    }
  }

  /** Nothing is received without a connection, and a message we were not told to expect ends it: anything but
      a Logon before the Logon, and an answer to a Logon that was never sent. */
  lemma {:induction false} UnexpectedEnds(c: Config, s: State, e: Timed, f: Inbound)
    requires StashKeyed(s.rec.stash) && Gets(e, f) && f.checks.beginStringOk && f.checks.dictionaryOk && !s.link.sentLogout
    ensures var r := Apply(c, s, e);
            && (!s.link.connected ==> r.o == s.o && r.link == s.link && r.i == s.i && r.rec == s.rec)
            && (s.link.connected && !s.link.receivedLogon && (f.msg.kind.App? || f.msg.kind.Heartbeat? || f.msg.kind.TestRequest? || f.msg.kind.ResendRequest?) ==>
                  Ends(s, r, []))
            && (s.link.connected && c.initiator && !s.link.sentLogon && f.msg.kind.Logon? && (!c.checkLatency || f.checks.sendingTime.Fresh?) ==> Ends(s, r, []))
            && (s.link.connected && f.msg.kind.Logon? && c.checkLatency && !f.checks.sendingTime.Fresh? ==> Ends(s, r, []))
  {
    hide Settle;
  }

  /** Who is let in. Once the peer has logged on: everything but another Logon, which needs a reset under way or a
      Logout of ours. Before: a Logon, a SequenceReset, a Reject, a Logout if we sent a Logon, and
      anything but a Logout if we sent a Logout. */
  predicate Admitted(l: Link, k: Kind) {
    if l.receivedLogon then !k.Logon? || l.sentReset || l.receivedReset || l.sentLogout
    else k.Logon? || k.SequenceReset? || k.Reject? || (if k.Logout? then l.sentLogon else l.sentLogout)
  }

  /** A message that is not let in ends the connection without a word, and one that is let in is verified. */
  lemma {:induction false} AdmittedIff(c: Config, s: State, e: Timed, f: Inbound)
    requires StashKeyed(s.rec.stash) && s.link.connected && Gets(e, f) && f.checks.beginStringOk && f.checks.dictionaryOk
    ensures ValidLogonState(s.link, f.msg.kind) <==> Admitted(s.link, f.msg.kind)
    ensures !f.msg.kind.Logon? && !f.msg.kind.Untyped? && !Admitted(s.link, f.msg.kind) ==>
              var r := Apply(c, s, e); Ends(s, r, []) && (!c.resetOnDisconnect ==> r.i.nextTarget == s.i.nextTarget)
    ensures !f.msg.kind.Logon? && !f.msg.kind.Untyped? && Admitted(s.link, f.msg.kind) && f.checks.sendingTime.Missing? ==>
              !Process(c, Clocked(s, e), f).dropped
  {
    hide Settle, Send, SendReject, ValidLogonState, Admitted;
    AdmissionIs(s.link, f.msg.kind);
  }

  lemma AdmissionIs(l: Link, k: Kind)
    ensures ValidLogonState(l, k) <==> Admitted(l, k)
  {
  }

  /** A Logon without a number is not accepted, not counted and not answered; the connection stays. */
  lemma {:induction false} LogonNeedsNumber(c: Config, s: State, f: Inbound)
    requires s.link.connected && !s.link.receivedLogon && !s.link.sentLogon && !c.initiator && !c.resetOnLogon
    requires f.msg.kind.Logon? && !f.msg.resetFlag && Passes(c, f.checks) && f.msg.seqNum.None?
    ensures var h := Process(c, s, f);
            && !h.dropped && h.s.link == s.link && h.s.i == s.i && h.s.rec == s.rec && h.s.o.wire == s.o.wire
            && h.s.o.nextSender == s.o.nextSender + 1
  {
  }

  /** A Logon ahead of the expected number is stashed. In 789 mode the gap is only recorded, because the peer has
      been told what is expected; otherwise, or when the Logon resets, it is asked for. */
  lemma HighLogonAsksIff(c: Config, s: State, f: Inbound)
    requires s.link.connected && s.rec.resendRange.None? && f.msg.kind.Logon? && TooHigh(s, f.msg)
    ensures var h := SequenceLogon(c, s, f);
            var n := f.msg.seqNum.value;
            var asks := !(c.nextExpected && !f.msg.resetFlag);
            && !h.dropped && h.s.i == s.i && h.s.rec.stash == s.rec.stash[n := f.(checks := f.later)]
            && |h.s.o.wire| == |s.o.wire| + (if asks then 1 else 0)
            && (asks ==> h.s.o.wire[|s.o.wire|].kind.ResendRequest? && h.s.o.wire[|s.o.wire|].beginSeqNo == Some(s.i.nextTarget as nat))
            && h.s.rec.resendRange.Some? && h.s.rec.resendRange.value.begin == s.i.nextTarget && h.s.rec.resendRange.value.fullEnd == n - 1
            && (!asks ==> h.s.rec.resendRange.value.chunkEnd == n - 1)
  {
  }

  /** What a request covers: up to the number it names, but no further than the last message sent; one that
      names none, or 0, or 999999, covers everything. One that names no beginning starts at 1. */
  lemma RequestCovers(o: Outgoing, m: Msg)
    ensures var last := o.nextSender - 1;
            && RequestedBegin(m) == (match m.beginSeqNo case Some(n) => n case None => 1)
            && RequestedEnd(o, m) == (match m.endSeqNo
                                      case None => last
                                      case Some(n) => if n == 0 || n == 999_999 || n > last then last else n)
  {
  }
}

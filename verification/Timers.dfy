/**
 Heartbeats, test requests and timeouts: the deadline the run loop sleeps until and the
 action taken when it passes agree, and every action makes progress.
 */
module Timers {
  import opened Messages
  import opened Schedules
  import opened SessionSpec
  import opened SessionInvariants

  lemma SendAlwaysCounts(c: Config, s: State, m: Msg)
    requires IsAdmin(m.kind)
    ensures Send(c, s, m, false).o.nextSender == s.o.nextSender + 1
    ensures s.link.connected && s.link.sentLogon ==> Send(c, s, m, false).o.lastSent == s.clock.now
  {
  }

  /** The timer does something exactly when its announced deadline has been reached. */
  lemma ActsIffDue(c: Config, s: State)
    ensures OnDeadline(c, s) != s <==> NextDeadline(c, s).Some? && s.clock.now >= NextDeadline(c, s).value
  {
    hide Send;
    SendAlwaysCounts(c, s.(i := s.i.(testRequests := s.i.testRequests + 1)), Plain(TestRequest));
    SendAlwaysCounts(c, s, Plain(Heartbeat));
  }

  /** What the timers rely on: an interval that is not negative, at most one test request
      outstanding, and no logged-on peer that has not been sent a Logon. */
  ghost predicate TimersOk(s: State) {
    s.clock.heartBtInt >= 0.0 && s.i.testRequests <= 1 && (s.link.receivedLogon ==> s.link.sentLogon)
  }

  /** Every action either ends the connection or moves the deadline beyond the present: the run loop
      cannot spin on an expired timer. */
  lemma ActionMakesProgress(c: Config, s: State)
    requires TimersOk(s) && OnDeadline(c, s) != s
    ensures var r := OnDeadline(c, s);
            || !r.link.connected
            || (NextDeadline(c, r).Some? && NextDeadline(c, r).value > s.clock.now)
  {
    hide Send;
    SendAlwaysCounts(c, s.(i := s.i.(testRequests := s.i.testRequests + 1)), Plain(TestRequest));
    SendAlwaysCounts(c, s, Plain(Heartbeat));
  }

  /** Without a verified message for 2.4 heartbeat intervals, the next firing disconnects. */
  lemma SilenceDisconnects(c: Config, s: State)
    requires s.link.connected && s.link.receivedLogon && !s.link.sentLogout && s.clock.heartBtInt > 0.0
    requires s.clock.now >= s.i.lastReceived + 2.4 * s.clock.heartBtInt
    ensures !OnDeadline(c, s).link.connected
    ensures NextDeadline(c, s).Some? && NextDeadline(c, s).value <= s.clock.now
  {
    hide Send;
  }

  // ----- every event keeps the timers in order -----

  /** Dropped connections only need their interval kept. */
  ghost predicate Kept(s: State, dropped: bool) {
    s.clock.heartBtInt >= 0.0 && (dropped || TimersOk(s))
  }

  /** Only the logout flag, the outgoing side and the counters of the incoming side may differ. */
  ghost predicate Undisturbed(s: State, r: State) {
    r.clock == s.clock && r.link == s.link.(sentLogout := r.link.sentLogout) && r.i.testRequests <= s.i.testRequests
  }

  lemma RejectLeaves(c: Config, s: State, m: Msg)
    ensures Undisturbed(s, SendReject(c, s, m)) && Undisturbed(s, InitiateLogout(c, SendReject(c, s, m)))
    ensures Undisturbed(s, InitiateLogout(c, s))
  {
    hide Send;
  }

  lemma ConsultLeaves(c: Config, s: State, f: Inbound)
    ensures Undisturbed(s, Consult(c, s, f).s)
  {
    hide Send;
    match f.checks.callback
    case Accept =>
    case RejectLogon =>
    case RejectMessage =>
    case Unsupported =>
  }

  lemma TooHighLeaves(c: Config, s: State, f: Inbound)
    requires TooHigh(s, f.msg)
    ensures Undisturbed(s, OnTargetTooHigh(c, s, f, f.msg.seqNum.value))
  {
    hide Send;
  }

  lemma VerifyTimers(c: Config, s: State, f: Inbound, checkHigh: bool, checkLow: bool)
    requires TimersOk(s)
    ensures TimersOk(Verify(c, s, f, checkHigh, checkLow).s) && Undisturbed(s, Verify(c, s, f, checkHigh, checkLow).s)
  {
    hide SendReject, InitiateLogout, Consult, OnTargetTooHigh;
    RejectLeaves(c, s, f.msg);
    ConsultLeaves(c, s, f);
    if TooHigh(s, f.msg) {
      TooHighLeaves(c, s, f);
    }
  }

  lemma SequenceLogonTimers(c: Config, s: State, f: Inbound)
    requires TimersOk(s)
    ensures TimersOk(SequenceLogon(c, s, f).s)
  {
    hide Send;
  }

  lemma {:induction false} AcceptLogonTimers(c: Config, s: State, f: Inbound)
    requires TimersOk(s) && (c.initiator ==> s.link.sentLogon)
    ensures var h := AcceptLogon(c, s, f); Kept(h.s, h.dropped)
  {
    hide Send, ResendAnswer, SequenceLogon;
    SequenceLogonTimers(c, AnswerLogon(c, s.(link := s.link.(receivedLogon := true)), f.msg), f);
  }

  lemma {:induction false} HandleLogonTimers(c: Config, s: State, f: Inbound)
    requires TimersOk(s)
    ensures var h := HandleLogon(c, s, f); Kept(h.s, h.dropped)
  {
    hide Verify, AcceptLogon;
    var r := LogonResets(c, s, f.msg);
    VerifyTimers(c, r.s, f, false, true);
    if !r.dropped {
      AcceptLogonTimers(c, Verify(c, r.s, f, false, true).s, f);
    }
  }

  lemma {:induction false} HandleCountedTimers(c: Config, s: State, f: Inbound)
    requires TimersOk(s)
    ensures var h := HandleCounted(c, s, f); Kept(h.s, h.dropped)
  {
    hide Verify;
    VerifyTimers(c, s, f, true, true);
  }

  lemma {:induction false} HandleTestRequestTimers(c: Config, s: State, f: Inbound)
    requires TimersOk(s)
    ensures var h := HandleTestRequest(c, s, f); Kept(h.s, h.dropped)
  {
    hide Verify, Send;
    VerifyTimers(c, s, f, true, true);
  }

  lemma {:induction false} HandleResendRequestTimers(c: Config, s: State, f: Inbound)
    requires TimersOk(s)
    ensures var h := HandleResendRequest(c, s, f); Kept(h.s, h.dropped)
  {
    hide Verify, TransmitAll, ResendAnswer;
    VerifyTimers(c, s, f, false, false);
  }

  lemma {:induction false} HandleSequenceResetTimers(c: Config, s: State, f: Inbound)
    requires TimersOk(s)
    ensures var h := HandleSequenceReset(c, s, f); Kept(h.s, h.dropped)
  {
    hide Verify, Send;
    VerifyTimers(c, s, f, f.msg.gapFill, f.msg.gapFill);
  }

  lemma {:induction false} HandleLogoutTimers(c: Config, s: State, f: Inbound)
    requires TimersOk(s)
    ensures var h := HandleLogout(c, s, f); Kept(h.s, h.dropped)
  {
    hide Verify, Send;
    VerifyTimers(c, s, f, false, false);
  }

  lemma {:induction false} ProcessTimers(c: Config, s: State, f: Inbound)
    requires TimersOk(s)
    ensures var h := Process(c, s, f); Kept(h.s, h.dropped)
  {
    hide SendReject, InitiateLogout;
    hide HandleLogon, HandleCounted, HandleTestRequest, HandleResendRequest, HandleSequenceReset, HandleLogout;
    RejectLeaves(c, s, f.msg);
    RejectLeaves(c, IncrTarget(s), f.msg);
    match f.msg.kind
    case Logon => HandleLogonTimers(c, s, f);
    case TestRequest => HandleTestRequestTimers(c, s, f);
    case ResendRequest => HandleResendRequestTimers(c, s, f);
    case SequenceReset => HandleSequenceResetTimers(c, s, f);
    case Logout => HandleLogoutTimers(c, s, f);
    case _ => HandleCountedTimers(c, s, f);
  }

  lemma {:induction false} DrainTimers(c: Config, s: State)
    requires TimersOk(s) && StashKeyed(s.rec.stash)
    ensures var h := Drain(c, s); Kept(h.s, h.dropped)
    decreases s.rec.stash.Keys
  {
    hide Process;
    var n: nat := s.i.nextTarget;
    if n in s.rec.stash {
      var f := s.rec.stash[n];
      var s1 := s.(rec := s.rec.(stash := s.rec.stash - {n}, lastWasQueued := true));
      if SkippedWhenQueued(f.msg) || !f.msg.parses {
        DrainTimers(c, IncrTarget(s1));
      } else {
        InSequenceNeverStashes(c, s1, f);
        ProcessTimers(c, s1, f);
        if !Process(c, s1, f).dropped {
          DrainTimers(c, Process(c, s1, f).s);
        }
      }
    }
  }

  lemma {:induction false} InboundTimers(c: Config, s: State, frame: Frame)
    requires TimersOk(s) && StashKeyed(s.rec.stash) && s.link.connected
    ensures TimersOk(OnInbound(c, s, frame))
  {
    hide Send, Process, Drain;
    if frame.Parsed? {
      var f := frame.inbound;
      var h := Process(c, s, f);
      ProcessTimers(c, s, f);
      ProcessStep(c, s, f);
      ProcessKeepsKeys(c, s, f);
      if !h.dropped {
        var s1 := h.s.(rec := h.s.rec.(lastWasQueued := false));
        DrainTimers(c, s1);
        DrainStep(c, s1);
      }
    }
  }

  lemma DeadlineTimers(c: Config, s: State)
    requires TimersOk(s)
    ensures TimersOk(OnDeadline(c, s))
  {
    hide Send;
  }

  lemma TickTimers(c: Config, s: State)
    requires TimersOk(s)
    ensures TimersOk(OnScheduleTick(c, s))
  {
    hide Send, IsInRange, ScheduledResetDue;
  }

  lemma AttachTimers(c: Config, s: State)
    requires TimersOk(s)
    ensures TimersOk(OnAttach(c, s)) && TimersOk(Disconnect(c, s))
  {
    hide Send, IsInRange;
  }

  lemma {:induction false} EventTimers(c: Config, s0: State, e: Timed)
    requires TimersOk(s0) && StashKeyed(s0.rec.stash)
    ensures TimersOk(Apply(c, s0, e))
  {
    hide Send, OnInbound, OnDeadline, OnScheduleTick, OnAttach, Disconnect;
    var s := s0.(clock := s0.clock.(now := e.now, utc := e.utc));
    DeadlineTimers(c, s);
    TickTimers(c, s);
    AttachTimers(c, s);
    if s.link.connected && e.event.Receive? {
      InboundTimers(c, s, e.event.frame);
    }
  }

  /** Over any run at most one test request is ever outstanding, and the timers stay in order, so that
      every firing of every run agrees with its deadline and makes progress. */
  lemma {:induction false} TimersOverRuns(c: Config, s: State, es: seq<Timed>)
    requires TimersOk(s) && StashKeyed(s.rec.stash)
    ensures var r := Run(c, s, es);
            && TimersOk(r)
            && (OnDeadline(c, r) != r <==> NextDeadline(c, r).Some? && r.clock.now >= NextDeadline(c, r).value)
            && (OnDeadline(c, r) != r && OnDeadline(c, r).link.connected ==>
                  NextDeadline(c, OnDeadline(c, r)).Some? && NextDeadline(c, OnDeadline(c, r)).value > r.clock.now)
  {
    hide Apply, OnDeadline, NextDeadline;
    if es != [] {
      var last := |es| - 1;
      TimersOverRuns(c, s, es[..last]);
      EventTimers(c, Run(c, s, es[..last]), es[last]);
    }
    var r := Run(c, s, es);
    ActsIffDue(c, r);
    if OnDeadline(c, r) != r {
      ActionMakesProgress(c, r);
    }
  }
}

/**
 Messages that come again: what a number below the expected one causes.
 */
module Duplicates {
  import opened Messages
  import opened SessionSpec
  import opened SessionInvariants
  import opened GapRecovery

  /** Everything about a message is in order except, perhaps, its number. */
  predicate InOrderOtherwise(c: Config, k: Checks) {
    && k.beginStringOk && k.dictionaryOk && !k.sendingTime.Missing?
    && (c.checkLatency ==> k.sendingTime.Fresh?)
    && (c.checkCompIds ==> k.compIdsOk)
  }

  /** The types whose number must not be too low. A ResendRequest, a Logout and a SequenceReset without
      GapFillFlag are handled whatever their number. */
  predicate MustNotBeLow(m: Msg) {
    !m.kind.Untyped? && !m.kind.Logon? && !m.kind.ResendRequest? && !m.kind.Logout? && (m.kind.SequenceReset? ==> m.gapFill)
  }

  /** A message with a number below the one expected reaches a logged-on session; it is no GapFill that
      comes late behind a replay. */
  ghost predicate ComesAgain(c: Config, s: State, e: Timed, f: Inbound) {
    && Inv(c, s) && s.link.connected && LoggedOn(s.link)
    && e.event == Receive(Parsed(f)) && InOrderOtherwise(c, f.checks) && MustNotBeLow(f.msg)
    && f.msg.seqNum.Some? && f.msg.seqNum.value < s.i.nextTarget
    && !(s.rec.lastWasQueued && f.msg.kind.SequenceReset?)
  }

  /** No OrigSendingTime is needed, or it is there and not behind SendingTime. */
  predicate NeedsNoReject(c: Config, f: Inbound) {
    f.msg.kind.SequenceReset? || !c.requiresOrigTime || f.checks.origTime.Plausible?
  }

  /** A message of ours with nothing in it but its type and number. */
  function SentAs(k: Kind, n: nat): Msg {
    Msg(k, Some(n), false, false, None, false, None, None, None, None, true, false, "")
  }

  /** Nothing that anyone could observe has changed. */
  ghost predicate Unmoved(s: State, r: State) {
    && r.i == s.i && r.link == s.link && r.rec.stash == s.rec.stash
    && r.rec.resendRange == s.rec.resendRange && r.rec.asked == s.rec.asked
  }

  /** How the message is handled, before anything stashed is looked at. */
  lemma {:induction false} LowIsProcessed(c: Config, s: State, e: Timed, f: Inbound)
    requires ComesAgain(c, s, e, f)
    ensures var q := Clocked(s, e);
            var h := Process(c, q, f);
            if !f.msg.possDup then h == Handled(InitiateLogout(c, q), true)
            else if NeedsNoReject(c, f) then h == Handled(q, false)
            else if f.checks.origTime.AfterSendingTime? then h == Handled(InitiateLogout(c, SendReject(c, q, f.msg)), false)
            else h == Handled(SendReject(c, q, f.msg), false)
  {
    hide Send, SendReject, InitiateLogout, Inv;
  }

  /** A session that waits for nothing that has arrived settles without a sound. */
  lemma {:induction false} SettlesUnmoved(c: Config, s: State)
    requires StashKeyed(s.rec.stash) && StashAbove(s) && Pending(s)
    ensures Unmoved(s, Settle(c, s)) && Settle(c, s).o == s.o && Settle(c, s).clock == s.clock
  {
    hide SendResendRequest;
    SettleIsQuiet(c, s);
  }

  lemma RejectOfLow(c: Config, s: State, m: Msg)
    requires s.link.connected && LoggedOn(s.link) && m.seqNum.Some? && m.seqNum.value < s.i.nextTarget
    ensures var r := SendReject(c, s, m);
            && r == s.(o := r.o) && r.o.nextSender == s.o.nextSender + 1
            && r.o.wire == s.o.wire + [SentAs(Reject, s.o.nextSender)]
  {
  }

  lemma LogoutIsSent(c: Config, s: State)
    requires s.link.connected
    ensures var r := InitiateLogout(c, s);
            && r == s.(o := r.o, link := s.link.(sentLogout := true))
            && r.o.wire == s.o.wire + [SentAs(Logout, s.o.nextSender)]
  {
  }

  /** Without PossDupFlag a number that is too low ends the connection, with exactly one Logout; with it the
      connection stays. A possible duplicate that needs no OrigSendingTime, or has a plausible one,
      changes nothing: it is not delivered, not counted and not answered. One without the time it
      needs is rejected, and one whose time lies behind SendingTime is rejected and followed by a Logout;
      neither is delivered or counted. */
  lemma {:induction false} TooLowDropsIff(c: Config, s: State, e: Timed, f: Inbound)
    requires ComesAgain(c, s, e, f)
    ensures var r := Apply(c, s, e);
            var n: nat := s.o.nextSender;
            && (r.link.connected <==> f.msg.possDup)
            && (!f.msg.possDup ==> r.o.wire == s.o.wire + [SentAs(Logout, n)])
            && (f.msg.possDup && NeedsNoReject(c, f) ==> Unmoved(s, r) && r.o == s.o)
            && (f.msg.possDup && !NeedsNoReject(c, f) && f.checks.origTime.NoOrigTime? ==>
                  Unmoved(s, r) && r.o.wire == s.o.wire + [SentAs(Reject, n)])
            && (f.msg.possDup && !NeedsNoReject(c, f) && f.checks.origTime.AfterSendingTime? ==>
                  && Unmoved(s.(link := s.link.(sentLogout := true)), r)
                  && r.o.wire == s.o.wire + [SentAs(Reject, n), SentAs(Logout, n + 1)])
  {
    hide Apply, OutgoingOk, IncomingOk;
    if !f.msg.possDup {
      LowDrops(c, s, e, f);
    } else if NeedsNoReject(c, f) {
      LowIsIgnored(c, s, e, f);
    } else {
      LowIsRejected(c, s, e, f);
    }
  }

  lemma {:induction false} LowDrops(c: Config, s: State, e: Timed, f: Inbound)
    requires ComesAgain(c, s, e, f) && !f.msg.possDup
    ensures var r := Apply(c, s, e); !r.link.connected && r.o.wire == s.o.wire + [SentAs(Logout, s.o.nextSender)]
  {
    hide Process, InitiateLogout, OutgoingOk, IncomingOk;
    LowIsProcessed(c, s, e, f);
    LogoutIsSent(c, Clocked(s, e));
  }

  lemma {:induction false} LowIsIgnored(c: Config, s: State, e: Timed, f: Inbound)
    requires ComesAgain(c, s, e, f) && f.msg.possDup && NeedsNoReject(c, f)
    ensures var r := Apply(c, s, e); r.link.connected && Unmoved(s, r) && r.o == s.o
  {
    hide Process, Settle, OutgoingOk, IncomingOk;
    LowIsProcessed(c, s, e, f);
    SettlesUnmoved(c, Clocked(s, e));
  }

  lemma {:induction false} LowIsRejected(c: Config, s: State, e: Timed, f: Inbound)
    requires ComesAgain(c, s, e, f) && f.msg.possDup && !NeedsNoReject(c, f)
    ensures var r := Apply(c, s, e);
            var n: nat := s.o.nextSender;
            && r.link.connected
            && (f.checks.origTime.NoOrigTime? ==> Unmoved(s, r) && r.o.wire == s.o.wire + [SentAs(Reject, n)])
            && (f.checks.origTime.AfterSendingTime? ==>
                  && Unmoved(s.(link := s.link.(sentLogout := true)), r)
                  && r.o.wire == s.o.wire + [SentAs(Reject, n), SentAs(Logout, n + 1)])
  {
    hide Process, Settle, SendReject, InitiateLogout, OutgoingOk, IncomingOk;
    var q := Clocked(s, e);
    LowIsProcessed(c, s, e, f);
    RejectOfLow(c, q, f.msg);
    var rejected := SendReject(c, q, f.msg);
    if f.checks.origTime.AfterSendingTime? {
      LogoutIsSent(c, rejected);
      SettlesUnmoved(c, InitiateLogout(c, rejected));
      assert s.o.wire + [SentAs(Reject, s.o.nextSender)] + [SentAs(Logout, s.o.nextSender + 1)]
          == s.o.wire + [SentAs(Reject, s.o.nextSender), SentAs(Logout, s.o.nextSender + 1)];
    } else {
      SettlesUnmoved(c, rejected);
    }
  }

  /** The same for a Logon that asks for no reset and meets no setting that resets: too low a number ends
      the connection with one Logout, unless it is marked as a possible duplicate. */
  lemma {:induction false} LowLogonDropsIff(c: Config, s: State, e: Timed, f: Inbound)
    requires Inv(c, s) && s.link.connected && !s.link.receivedLogon && (c.initiator ==> s.link.sentLogon)
    requires e.event == Receive(Parsed(f)) && InOrderOtherwise(c, f.checks) && f.msg.kind.Logon?
    requires !f.msg.resetFlag && (c.initiator || !c.resetOnLogon)
    requires f.msg.seqNum.Some? && f.msg.seqNum.value < s.i.nextTarget
    ensures var r := Apply(c, s, e);
            && (r.link.connected <==> f.msg.possDup) && !LoggedOn(r.link)
            && (!f.msg.possDup ==> r.o.wire == s.o.wire + [SentAs(Logout, s.o.nextSender)])
            && r.i.delivered <= s.i.delivered && (c.resetOnDisconnect || r.i.nextTarget == s.i.nextTarget)
  {
    hide Settle, SendReject, InitiateLogout, OutgoingOk, IncomingOk;
    var q := Clocked(s, e);
    LogoutIsSent(c, q);
    if f.msg.possDup {
      LowLogonStays(c, q, f);
      SettlesUnmoved(c, Process(c, q, f).s);
    }
  }

  lemma LowLogonStays(c: Config, s: State, f: Inbound)
    requires s.link.connected && !s.link.receivedLogon && (c.initiator ==> s.link.sentLogon)
    requires InOrderOtherwise(c, f.checks) && f.msg.kind.Logon? && f.msg.possDup
    requires !f.msg.resetFlag && (c.initiator || !c.resetOnLogon)
    requires f.msg.seqNum.Some? && f.msg.seqNum.value < s.i.nextTarget
    ensures var h := Process(c, s, f);
            !h.dropped && h.s.i == s.i && h.s.rec == s.rec && h.s.link == s.link.(sentLogout := h.s.link.sentLogout)
  {
    hide Send;
  }
}

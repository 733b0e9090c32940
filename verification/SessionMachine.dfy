/**
 The session task itself: one object that owns all session state and updates it in place,
 handler by handler. Every method is tied to the function of SessionSpec that specifies it, so
 that everything proved about runs of those functions holds for runs of this object.
 */
module SessionMachine {
  import opened Messages
  import opened Schedules
  import Spec = SessionSpec
  import opened SessionSpec

  class Session {
    const cfg: Config

    var link: Link       // connection and logon flags
    var o: Outgoing      // sender half of the store, outbound channel
    var i: Incoming      // target half of the store, deliveries
    var rec: Recovery    // stash and outstanding resend range
    var clock: Clock     // clocks, heartbeat interval, creation time of the store

    ghost function View(): State
      reads this
    {
      State(link, o, i, rec, clock)
    }

    ghost predicate Valid()
      reads this
    {
      StashKeyed(rec.stash)
    }

    /** A session over a store that may come from an earlier life. */
    constructor (config: Config, sender: SeqNum, target: SeqNum, saved: map<nat, Msg>, created: int,
                 interval: real, now: real, utc: int)
      ensures cfg == config && Valid()
      ensures View() == Spawned(sender, target, saved, created, interval, now, utc)
    {
      cfg := config;
      link := Link(false, false, false, false, false, false, false);
      o := Outgoing(sender, saved, now, [], sender, [], 0);
      i := Incoming(target, now, 0, []);
      rec := Recovery(None, map[], false, []);
      clock := Clock(now, utc, interval, created, 0, []);
    }

    // ----- the store -----

    method IncrTarget()
      modifies this
      ensures View() == Spec.IncrTarget(old(View()))
    {
      i := i.(nextTarget := i.nextTarget + 1);
    }

    method ResetStore()
      modifies this
      ensures View() == Spec.ResetStore(old(View()))
    {
      o := o.(nextSender := 1, saved := map[], base := 1, numbered := [], mark := |o.wire|);
      i := i.(nextTarget := 1, delivered := []);
      clock := clock.(created := clock.utc, epoch := clock.epoch + 1);
    }

    // ----- outbound -----

    method Transmit(m: Msg)
      modifies this
      ensures View() == TransmitAll(old(View()), [m])
    {
      if link.connected {
        o := o.(wire := o.wire + [m], lastSent := clock.now);
      }
    }

    method Send(m: Msg, vetoed: bool) returns (sent: bool)
      modifies this
      ensures View() == Spec.Send(cfg, old(View()), m, vetoed)
      ensures sent <==> o.nextSender == old(o.nextSender) + 1
      ensures !sent ==> View() == old(View())
    {
      if !IsAdmin(m.kind) && vetoed {
        return false;
      }
      var m1 := m.(seqNum := Some(o.nextSender), possDup := false);
      if cfg.persist {
        o := o.(saved := o.saved[o.nextSender as nat := m1]);
      }
      o := o.(nextSender := o.nextSender + 1, numbered := o.numbered + [m1]);
      if LoggedOn(link) || AlwaysTransmitted(m.kind) || link.sentLogon {
        Transmit(m1);
      }
      return true;
    }

    method InitiateLogout()
      modifies this
      ensures View() == Spec.InitiateLogout(cfg, old(View()))
    {
      hide Spec.Send;
      link := link.(sentLogout := true);
      var _ := Send(Plain(Logout), false);
    }

    method SendLogon()
      modifies this
      ensures View() == Spec.SendLogon(cfg, old(View()))
    {
      hide Spec.Send;
      var shouldReset :=
        cfg.sendResetFlag || (cfg.fix41Plus && cfg.resetOnLogon && o.nextSender == 1 && i.nextTarget == 1);
      assert shouldReset == ResetsOnLogon(cfg, View());
      var logon := Plain(Logon).(heartBtInt := Some(WholeSeconds(clock.heartBtInt)), resetFlag := shouldReset);
      if shouldReset {
        link := link.(sentReset := true);
      }
      if cfg.nextExpected {
        logon := logon.(nextExpected := Some(i.nextTarget));
      }
      assert logon == LogonRequest(cfg, old(View()));
      link := link.(sentLogon := true);
      var _ := Send(logon, false);
    }

    method SendLogonReply(peerInterval: Option<nat>)
      modifies this
      ensures View() == Spec.SendLogonReply(cfg, old(View()), peerInterval)
    {
      hide Spec.Send;
      if peerInterval.Some? {
        clock := clock.(heartBtInt := if cfg.heartBtOverride.Some? then cfg.heartBtOverride.value as real
                                      else peerInterval.value as real);
      }
      var logon := Plain(Logon).(heartBtInt := Some(WholeSeconds(clock.heartBtInt)));
      if link.receivedReset {
        if cfg.nextExpected {
          logon := logon.(resetFlag := true);
        }
        link := link.(sentReset := true);
      }
      if cfg.nextExpected {
        logon := logon.(nextExpected := Some(i.nextTarget + 1));
      }
      assert logon == LogonReply(cfg, old(View()), peerInterval);
      link := link.(sentLogon := true);
      var _ := Send(logon, false);
    }

    method SendReject(offender: Msg)
      modifies this
      ensures View() == Spec.SendReject(cfg, old(View()), offender)
    {
      hide Spec.Send;
      if !offender.kind.Logon? && !offender.kind.SequenceReset? && offender.seqNum == Some(i.nextTarget as nat) {
        IncrTarget();
      }
      var _ := Send(Plain(Reject), false);
    }

    method SendBusinessReject(vetoed: bool)
      modifies this
      ensures View() == Spec.SendBusinessReject(cfg, old(View()), vetoed)
    {
      hide Spec.Send;
      IncrTarget();
      var _ := Send(Plain(if cfg.fix42Plus then App("j") else Reject), vetoed);
    }

    // ----- resend requests -----

    method SendResendRequest(begin: nat, received: nat)
      requires received >= 1
      modifies this
      ensures View() == Spec.SendResendRequest(cfg, old(View()), begin, received)
    {
      hide Spec.Send;
      var fullEnd := received - 1;
      var chunkEnd, endSeqNo := fullEnd, if cfg.fix42Plus then 0 else 999999;
      if cfg.maxResend > 0 {
        chunkEnd := if fullEnd < begin + cfg.maxResend - 1 then fullEnd else begin + cfg.maxResend - 1;
        endSeqNo := chunkEnd;
      }
      var range := Range(begin, fullEnd, chunkEnd);
      rec := rec.(resendRange := Some(range), asked := rec.asked + [range]);
      var _ := Send(Plain(ResendRequest).(beginSeqNo := Some(begin), endSeqNo := Some(endSeqNo)), false);
    }

    method CheckResendChunks()
      modifies this
      ensures View() == Spec.CheckResendChunks(cfg, old(View()))
    {
      hide Spec.SendResendRequest;
      if rec.resendRange.None? || i.nextTarget <= rec.resendRange.value.chunkEnd {
        return;
      }
      if i.nextTarget <= rec.resendRange.value.fullEnd {
        SendResendRequest(i.nextTarget, rec.resendRange.value.fullEnd + 1);
      } else {
        rec := rec.(resendRange := None);
      }
    }

    // ----- answering a resend request -----

    method SendGapFill(begin: nat, newSeq: nat)
      modifies this
      ensures View() == TransmitAll(old(View()), [GapFillFor(begin, newSeq)])
    {
      Transmit(GapFillFor(begin, newSeq));
    }

    /** Resend stored application messages; fold everything else into GapFills. */
    method Retransmit(begin: nat, end: nat, vetoes: set<nat>)
      requires begin <= end
      modifies this
      ensures View() == TransmitAll(old(View()), Replay(old(o.saved), vetoes, begin, end, None))
    {
      hide GapFillFor, ResendOf, TransmitAll, IsAdmin, Replay;
      ghost var s := View();
      TransmitNothing(s);
      ghost var emitted: seq<Msg> := [];
      var stored := o.saved;
      var gap: Option<nat> := None;
      for n := begin to end + 1
        invariant View() == TransmitAll(s, emitted)
        invariant emitted + Replay(stored, vetoes, n, end, gap) == Replay(stored, vetoes, begin, end, None)
      {
        ReplayUnfolds(stored, vetoes, n, end, gap, emitted);
        if n in stored && stored[n].parses && !IsAdmin(stored[n].kind) && n !in vetoes {
          var m := ResendOf(stored[n]);
          if gap.Some? {
            TransmitJoins(s, emitted, GapFillFor(gap.value, n));
            SendGapFill(gap.value, n);
            emitted := emitted + [GapFillFor(gap.value, n)];
            gap := None;
          }
          TransmitJoins(s, emitted, m);
          Transmit(m);
          emitted := emitted + [m];
        } else if gap.None? {
          gap := Some(n);
        }
      }
      ReplayUnfolds(stored, vetoes, end + 1, end, gap, emitted);
      if gap.Some? {
        TransmitJoins(s, emitted, GapFillFor(gap.value, end + 1));
        SendGapFill(gap.value, end + 1);
      }
    }

    /** One turn of the loop, behind what has been emitted already. */
    static lemma {:induction false} ReplayUnfolds(stored: map<nat, Msg>, vetoes: set<nat>, n: nat, end: nat, gap: Option<nat>, emitted: seq<Msg>)
      requires n <= end + 1
      ensures emitted + Replay(stored, vetoes, n, end, gap) ==
              if n > end then Filled(emitted, gap, n)
              else if Resends(stored, vetoes, n) then
                Filled(emitted, gap, n) + [ResendOf(stored[n])] + Replay(stored, vetoes, n + 1, end, None)
              else emitted + Replay(stored, vetoes, n + 1, end, if gap.Some? then gap else Some(n))
    {
      hide GapFillFor, ResendOf;
      assert emitted + [] == emitted;
    }

    static function Filled(emitted: seq<Msg>, gap: Option<nat>, n: nat): seq<Msg> {
      if gap.Some? then emitted + [GapFillFor(gap.value, n)] else emitted
    }

    static lemma TransmitNothing(s: State)
      ensures TransmitAll(s, []) == s
    {
    }

    static lemma TransmitJoins(s: State, ms: seq<Msg>, m: Msg)
      ensures TransmitAll(TransmitAll(s, ms), [m]) == TransmitAll(s, ms + [m])
    {
      assert ms == [] ==> ms + [m] == [m];
      assert s.o.wire + (ms + [m]) == s.o.wire + ms + [m];
    }

    method AnswerResend(begin: nat, end: nat, vetoes: set<nat>)
      modifies this
      ensures View() == TransmitAll(old(View()), ResendAnswer(cfg, old(o.saved), vetoes, begin, end))
    {
      if begin > end {
        return;
      }
      if cfg.persist {
        Retransmit(begin, end, vetoes);
      } else {
        SendGapFill(begin, end + 1);
      }
    }

    // ----- verification -----

    method OnTargetTooHigh(f: Inbound, received: nat)
      requires received >= 1
      modifies this
      ensures View() == Spec.OnTargetTooHigh(cfg, old(View()), f, received)
    {
      hide Spec.SendResendRequest;
      var expected := i.nextTarget;
      rec := rec.(stash := rec.stash[received := f.(checks := f.later)]);
      if rec.resendRange.None? || cfg.redundantRequests {
        SendResendRequest(expected, received);
      }
    }

    method OnTargetTooLow(f: Inbound) returns (flow: Flow)
      modifies this
      ensures Verdict(View(), flow) == Spec.OnTargetTooLow(cfg, old(View()), f)
    {
      hide Spec.InitiateLogout, Spec.SendReject;
      if !f.msg.possDup {
        InitiateLogout();
        return Drop;
      }
      if !f.msg.kind.SequenceReset? && cfg.requiresOrigTime {
        match f.checks.origTime {
          case Plausible =>
          case AfterSendingTime =>
            SendReject(f.msg);
            InitiateLogout();
          case NoOrigTime =>
            SendReject(f.msg);
        }
      }
      return Stop;
    }

    method Consult(f: Inbound) returns (flow: Flow)
      modifies this
      ensures Verdict(View(), flow) == Spec.Consult(cfg, old(View()), f)
    {
      hide Spec.InitiateLogout, Spec.SendReject, Spec.SendBusinessReject;
      i := i.(lastReceived := clock.now, testRequests := 0);
      if !IsAdmin(f.msg.kind) {
        i := i.(delivered := i.delivered + [Delivery(f.msg, i.nextTarget)]);
      }
      assert View() == Heard(old(View()), f.msg);
      match f.checks.callback {
        case Accept =>
          return Continue;
        case RejectLogon =>
          IncrTarget();
          InitiateLogout();
          return Drop;
        case RejectMessage =>
          SendReject(f.msg);
          return Stop;
        case Unsupported =>
          SendBusinessReject(f.checks.replyVetoed);
          return Stop;
      }
    }

    method Verify(f: Inbound, checkHigh: bool, checkLow: bool) returns (flow: Flow)
      modifies this
      ensures Verdict(View(), flow) == Spec.Verify(cfg, old(View()), f, checkHigh, checkLow)
    {
      hide Spec.InitiateLogout, Spec.SendReject, Spec.Consult, Spec.OnTargetTooHigh, Spec.OnTargetTooLow;
      if !ValidLogonState(link, f.msg.kind) {
        return Drop;
      }
      if f.checks.sendingTime.Missing? {
        SendReject(f.msg);
        return Stop;
      }
      if f.checks.sendingTime.Stale? && cfg.checkLatency {
        SendReject(f.msg);
        InitiateLogout();
        return Stop;
      }
      if cfg.checkCompIds && !f.checks.compIdsOk {
        SendReject(f.msg);
        InitiateLogout();
        return Stop;
      }
      if checkHigh || checkLow {
        if f.msg.seqNum.None? {
          SendReject(f.msg);
          return Stop;
        }
        var received := f.msg.seqNum.value;
        if checkHigh && received > i.nextTarget {
          OnTargetTooHigh(f, received);
          return Stop;
        }
        if checkLow && received < i.nextTarget {
          var obeyAnyway := rec.lastWasQueued && f.msg.kind.SequenceReset? && f.msg.gapFill;
          if !obeyAnyway {
            flow := OnTargetTooLow(f);
            return;
          }
        }
      }
      flow := Consult(f);
    }

    // ----- handlers -----

    method LogonResets(m: Msg) returns (dropped: bool)
      modifies this
      ensures Handled(View(), dropped) == Spec.LogonResets(cfg, old(View()), m)
    {
      if m.resetFlag {
        link := link.(receivedReset := true);
        if !link.sentReset {
          ResetStore();
        }
      }
      if cfg.initiator && !link.sentLogon {
        return true;
      }
      if !cfg.initiator && cfg.resetOnLogon && !link.receivedReset {
        ResetStore();
      }
      return false;
    }

    method SequenceLogon(f: Inbound) returns (dropped: bool)
      modifies this
      ensures Handled(View(), dropped) == Spec.SequenceLogon(cfg, old(View()), f)
    {
      hide Spec.OnTargetTooHigh;
      if f.msg.seqNum.None? {
        return true;
      }
      var n := f.msg.seqNum.value;
      var expected := i.nextTarget;
      if n > expected {
        if cfg.nextExpected && !f.msg.resetFlag {
          rec := rec.(stash := rec.stash[n := f.(checks := f.later)], resendRange := Some(Range(expected, n - 1, n - 1)));
        } else {
          OnTargetTooHigh(f, n);
        }
      } else {
        IncrTarget();
      }
      return false;
    }

    method AcceptLogon(f: Inbound) returns (dropped: bool)
      modifies this
      ensures Handled(View(), dropped) == Spec.AcceptLogon(cfg, old(View()), f)
    {
      hide Spec.InitiateLogout, Spec.SendLogonReply, Spec.SequenceLogon, Spec.ResendAnswer, TransmitAll;
      link := link.(receivedLogon := true);
      var retransmitFrom: Option<nat> := None;
      if cfg.nextExpected && f.msg.nextExpected.Some? {
        var peer := f.msg.nextExpected.value;
        if peer > o.nextSender {
          InitiateLogout();
          return true;
        } else if peer < o.nextSender {
          retransmitFrom := Some(peer);
        }
      }
      if !cfg.initiator {
        SendLogonReply(f.msg.heartBtInt);
      }
      link := link.(sentReset := false, receivedReset := false);
      dropped := SequenceLogon(f);
      if !dropped && retransmitFrom.Some? {
        AnswerResend(retransmitFrom.value, o.nextSender - 1, f.checks.resendVetoes);
      }
    }

    method HandleLogon(f: Inbound) returns (dropped: bool)
      modifies this
      ensures Handled(View(), dropped) == Spec.HandleLogon(cfg, old(View()), f)
    {
      hide Spec.LogonResets, Spec.Verify, Spec.AcceptLogon;
      if cfg.checkLatency && !f.checks.sendingTime.Fresh? {
        return true;
      }
      dropped := LogonResets(f.msg);
      if dropped {
        return;
      }
      var flow := Verify(f, false, true);
      if flow.Continue? {
        dropped := AcceptLogon(f);
      } else {
        dropped := flow.Drop?;
      }
    }

    /** Heartbeats, Rejects and application messages. */
    method HandleCounted(f: Inbound) returns (dropped: bool)
      modifies this
      ensures Handled(View(), dropped) == Spec.HandleCounted(cfg, old(View()), f)
    {
      hide Spec.Verify;
      var flow := Verify(f, true, true);
      if flow.Continue? {
        IncrTarget();
      }
      dropped := flow.Drop?;
    }

    method HandleTestRequest(f: Inbound) returns (dropped: bool)
      modifies this
      ensures Handled(View(), dropped) == Spec.HandleTestRequest(cfg, old(View()), f)
    {
      hide Spec.Verify, Spec.Send;
      var flow := Verify(f, true, true);
      if flow.Continue? {
        var _ := Send(Plain(Heartbeat), false);
        IncrTarget();
      }
      dropped := flow.Drop?;
    }

    method HandleResendRequest(f: Inbound) returns (dropped: bool)
      modifies this
      ensures Handled(View(), dropped) == Spec.HandleResendRequest(cfg, old(View()), f)
    {
      hide Spec.Verify, TransmitAll, ResendAnswer;
      var flow := Verify(f, false, false);
      if !flow.Continue? {
        return flow.Drop?;
      }
      var begin := if f.msg.beginSeqNo.Some? then f.msg.beginSeqNo.value else 1;
      var end := if f.msg.endSeqNo.Some? then f.msg.endSeqNo.value else 0;
      if end == 0 || end == 999999 || end >= o.nextSender {
        end := o.nextSender - 1;
      }
      AnswerResend(begin, end, f.checks.resendVetoes);
      if f.msg.seqNum == Some(i.nextTarget as nat) {
        IncrTarget();
      }
      return false;
    }

    method HandleSequenceReset(f: Inbound) returns (dropped: bool)
      modifies this
      ensures Handled(View(), dropped) == Spec.HandleSequenceReset(cfg, old(View()), f)
    {
      hide Spec.Verify, Spec.SendReject;
      var flow := Verify(f, f.msg.gapFill, f.msg.gapFill);
      if !flow.Continue? {
        return flow.Drop?;
      }
      if f.msg.newSeqNo.Some? {
        var n := f.msg.newSeqNo.value;
        if n > i.nextTarget {
          i := i.(nextTarget := n);
          rec := rec.(stash := map k | k in rec.stash && k >= n :: rec.stash[k]);
        } else if n < i.nextTarget {
          SendReject(f.msg);
        }
      }
      return false;
    }

    method HandleLogout(f: Inbound) returns (dropped: bool)
      modifies this
      ensures Handled(View(), dropped) == Spec.HandleLogout(cfg, old(View()), f)
    {
      hide Spec.Verify, Spec.InitiateLogout, Spec.ResetStore;
      var flow := Verify(f, false, false);
      if !flow.Continue? {
        return flow.Drop?;
      }
      if !link.sentLogout {
        InitiateLogout();
      }
      IncrTarget();
      if cfg.resetOnLogout {
        ResetStore();
      }
      return true;
    }

    method Process(f: Inbound) returns (dropped: bool)
      modifies this
      ensures Handled(View(), dropped) == Spec.Process(cfg, old(View()), f)
    {
      hide Spec.InitiateLogout, Spec.SendReject, Spec.HandleLogon, Spec.HandleCounted, Spec.HandleTestRequest;
      hide Spec.HandleResendRequest, Spec.HandleSequenceReset, Spec.HandleLogout;
      if f.msg.kind.Untyped? {
        return false;
      }
      if !f.checks.beginStringOk {
        IncrTarget();
        InitiateLogout();
        return true;
      }
      if !f.checks.dictionaryOk {
        SendReject(f.msg);
        return false;
      }
      if f.msg.kind.Logon? {
        dropped := HandleLogon(f);
      } else if f.msg.kind.TestRequest? {
        dropped := HandleTestRequest(f);
      } else if f.msg.kind.ResendRequest? {
        dropped := HandleResendRequest(f);
      } else if f.msg.kind.SequenceReset? {
        dropped := HandleSequenceReset(f);
      } else if f.msg.kind.Logout? {
        dropped := HandleLogout(f);
      } else {
        dropped := HandleCounted(f);
      }
    }

    method Disconnect()
      modifies this
      ensures View() == Spec.Disconnect(cfg, old(View()))
    {
      hide Spec.ResetStore;
      if !link.connected {
        return;
      }
      link := Link(false, false, false, false, false, false, link.pendingLogon);
      i := i.(testRequests := 0);
      rec := rec.(resendRange := None, stash := map[]);
      if cfg.resetOnDisconnect {
        ResetStore();
      }
    }

    // ----- inbound -----

    /** Replay stashed messages that have become next in sequence; the stash shrinks every time. */
    method DrainStash() returns (dropped: bool)
      requires Valid()
      modifies this
      ensures Valid() && Handled(View(), dropped) == Drain(cfg, old(View()))
    {
      hide Spec.Process;
      ghost var s := View();
      DrainKeepsKeys(cfg, s);
      while i.nextTarget as nat in rec.stash
        invariant Valid() && Drain(cfg, View()) == Drain(cfg, s)
        decreases rec.stash.Keys
      {
        var n: nat := i.nextTarget;
        var f := rec.stash[n];
        rec := rec.(stash := rec.stash - {n}, lastWasQueued := true);
        if SkippedWhenQueued(f.msg) || !f.msg.parses {
          IncrTarget();
        } else {
          InSequenceNeverStashes(cfg, View(), f);
          dropped := Process(f);
          if dropped {
            return;
          }
        }
      }
      return false;
    }

    method OnInbound(frame: Frame)
      requires Valid()
      modifies this
      ensures Valid() && View() == Spec.OnInbound(cfg, old(View()), frame)
    {
      hide Spec.Process, Drain, Spec.Disconnect, Spec.CheckResendChunks;
      InboundKeepsKeys(cfg, View(), frame);
      match frame {
        case Garbled(looksLikeLogon) =>
          if !link.receivedLogon && looksLikeLogon {
            Disconnect();
          }
        case Parsed(f) =>
          ProcessKeepsKeys(cfg, View(), f);
          var dropped := Process(f);
          if dropped {
            Disconnect();
            return;
          }
          rec := rec.(lastWasQueued := false);
          dropped := DrainStash();
          if dropped {
            Disconnect();
            return;
          }
          CheckResendChunks();
      }
    }

    // ----- timers and schedule -----

    method OnDeadline()
      modifies this
      ensures View() == Spec.OnDeadline(cfg, old(View()))
    {
      hide Spec.Send, Spec.Disconnect;
      if !link.connected {
        return;
      }
      var sinceSent := clock.now - o.lastSent;
      var sinceReceived := clock.now - i.lastReceived;
      if link.sentLogout {
        if sinceSent >= cfg.logoutTimeout {
          Disconnect();
        }
        return;
      }
      if !link.receivedLogon {
        if sinceReceived >= cfg.logonTimeout {
          Disconnect();
        }
        return;
      }
      var interval := clock.heartBtInt;
      if interval == 0.0 {
        return;
      }
      if sinceReceived >= 2.4 * interval {
        if cfg.logoutBeforeTimeout {
          InitiateLogout();
        }
        Disconnect();
      } else if sinceReceived >= 1.2 * (i.testRequests + 1) as real * interval {
        i := i.(testRequests := i.testRequests + 1);
        var _ := Send(Plain(TestRequest), false);
      } else if sinceSent >= interval && i.testRequests == 0 {
        var _ := Send(Plain(Heartbeat), false);
      }
    }

    method LogOff()
      modifies this
      ensures View() == Spec.LogOff(cfg, old(View()))
    {
      hide Spec.InitiateLogout, Spec.Disconnect;
      if link.connected {
        if LoggedOn(link) && !link.sentLogout {
          InitiateLogout();
        }
        Disconnect();
      }
    }

    method OnScheduleTick()
      modifies this
      ensures View() == Spec.OnScheduleTick(cfg, old(View()))
    {
      hide Spec.LogOff, Spec.InitiateLogout, Spec.SendLogon, Spec.ResetStore, IsInRange, IsInSameRange;
      if cfg.schedule.nonStop {
        return;
      }
      var utc := clock.utc;
      if !IsInRange(cfg.schedule, utc) {
        LogOff();
        return;
      }
      if !IsInSameRange(cfg.schedule, utc, clock.created) {
        LogOff();
        ResetStore();
        clock := clock.(scheduledResets := clock.scheduledResets + [utc]);
        return;
      }
      if link.connected && LoggedOn(link) && !link.sentLogout && !IsInRange(cfg.logonSchedule, utc) {
        InitiateLogout();
      }
      if link.pendingLogon && link.connected && !link.sentLogon && IsInRange(cfg.logonSchedule, utc) {
        link := link.(pendingLogon := false);
        SendLogon();
      }
    }

    method OnAttach()
      modifies this
      ensures View() == Spec.OnAttach(cfg, old(View()))
    {
      hide Spec.SendLogon, Spec.ResetStore, IsInRange;
      if link.connected {
        return;
      }
      link := link.(connected := true);
      o := o.(lastSent := clock.now);
      i := i.(lastReceived := clock.now, testRequests := 0);
      if cfg.initiator {
        if cfg.resetOnLogon {
          ResetStore();
        }
        if IsInRange(cfg.logonSchedule, clock.utc) {
          SendLogon();
        } else {
          link := link.(pendingLogon := true);
        }
      }
    }

    // ----- the run loop -----

    /** One turn of the run loop: whatever is proved of runs of Apply holds of this object. */
    method Handle(e: Timed)
      requires Valid()
      modifies this
      ensures Valid() && View() == Apply(cfg, old(View()), e)
    {
      hide Spec.Send, Spec.OnAttach, Spec.InitiateLogout, Spec.OnInbound, Spec.Disconnect, Spec.OnScheduleTick, Spec.OnDeadline;
      ApplyKeepsKeys(cfg, View(), e);
      clock := clock.(now := e.now, utc := e.utc);
      match e.event {
        case SendMessage(m, vetoed) =>
          var _ := Send(m, vetoed);
        case Attach =>
          OnAttach();
        case Logoff =>
          if LoggedOn(link) {
            InitiateLogout();
          }
        case ChangeSeqNums(sender, target) =>
          var nextSender := if sender.Some? then sender.value else o.nextSender;
          o := o.(nextSender := nextSender, base := nextSender, numbered := [], mark := |o.wire|);
          i := i.(nextTarget := if target.Some? then target.value else i.nextTarget, delivered := []);
          clock := clock.(epoch := clock.epoch + 1);
        case Receive(frame) =>
          if link.connected {
            OnInbound(frame);
          }
        case PeerClosed =>
          Disconnect();
        case ScheduleTick =>
          OnScheduleTick();
        case Deadline =>
          OnDeadline();
      }
    }

    /** The run loop over a finite stretch of events. */
    method Serve(es: seq<Timed>)
      requires Valid()
      modifies this
      ensures Valid() && View() == Run(cfg, old(View()), es)
    {
      hide Apply;
      ghost var s := View();
      for n := 0 to |es|
        invariant Valid() && View() == Run(cfg, s, es[..n])
      {
        assert es[..n + 1][..n] == es[..n];
        Handle(es[n]);
      }
      assert es[..|es|] == es;
    }
  }
}

/**
 Recovery folded into logon: both sides announce NextExpectedMsgSeqNum(789), and the acceptor
 retransmits what the initiator is missing without being asked.
 */
module Handshake {
  import opened Messages
  import opened Schedules
  import opened SessionSpec
  import opened SessionInvariants
  import opened GapRecovery

  /** Not connected and nothing left over from an earlier connection. */
  ghost predicate Idle(s: State) {
    && s.link == Link(false, false, false, false, false, false, s.link.pendingLogon)
    && s.rec.stash == map[] && s.rec.resendRange.None?
  }

  /** Dropping a connection leaves a session idle. */
  lemma DisconnectIdles(c: Config, s: State)
    requires s.link.connected
    ensures Idle(Disconnect(c, s))
  {
  }

  /** 789 mode, without any of the settings that reset the counters at logon. */
  predicate NegotiatesGaps(c: Config) { c.nextExpected && !c.resetOnLogon && !c.sendResetFlag }

  // ----- the initiator opens -----

  lemma {:induction false} InitiatorOpens(c: Config, s: State, e: Timed)
    requires c.initiator && NegotiatesGaps(c) && Idle(s)
    requires e.event.Attach? && IsInRange(c.logonSchedule, e.utc)
    ensures var r := Apply(c, s, e);
            && r.i.nextTarget == s.i.nextTarget && r.i.delivered == s.i.delivered && r.rec == s.rec
            && r.o.nextSender == s.o.nextSender + 1
            && r.o == Enroll(c, s.o, LogonRequest(c, s)).(
                        wire := s.o.wire + [WithNextNumber(s.o, LogonRequest(c, s))], lastSent := r.o.lastSent)
            && r.clock.heartBtInt == s.clock.heartBtInt
            && r.link.connected && r.link.sentLogon && !r.link.receivedLogon && !r.link.sentLogout
            && !r.link.sentReset && !r.link.receivedReset
  {
    hide IsInRange;
  }

  // ----- the acceptor answers -----

  /** The acceptor's reply and, behind it, everything the initiator said it lacks. */
  function Greeting(c: Config, s: State, f: Inbound): seq<Msg> {
    var reply := WithNextNumber(s.o, LogonReply(c, s, f.msg.heartBtInt));
    var behind := f.msg.nextExpected.Some? && f.msg.nextExpected.value < s.o.nextSender;
    [reply] + (if behind then ResendAnswer(c, Enroll(c, s.o, LogonReply(c, s, f.msg.heartBtInt)).saved, f.checks.resendVetoes,
                                           f.msg.nextExpected.value, s.o.nextSender)
               else [])
  }

  ghost predicate Awaiting(c: Config, s: State) {
    && !c.initiator && NegotiatesGaps(c) && s.rec.stash == map[] && s.rec.resendRange.None?
    && s.link == Link(true, false, false, false, false, false, s.link.pendingLogon)
  }

  /** The acceptor adopts the interval, replies and sends what is missing. A Logon in sequence is counted;
      one that is too high is stashed, and its gap recorded without a request. */
  lemma {:induction false} AcceptorGreets(c: Config, s: State, f: Inbound)
    requires Awaiting(c, s) && Passes(c, f.checks)
    requires f.msg.kind.Logon? && !f.msg.resetFlag && f.msg.seqNum.Some? && f.msg.seqNum.value >= s.i.nextTarget
    requires f.msg.nextExpected.Some? && f.msg.nextExpected.value <= s.o.nextSender
    ensures var h := Process(c, s, f);
            var n := f.msg.seqNum.value;
            && !h.dropped
            && h.s.o == Enroll(c, s.o, LogonReply(c, s, f.msg.heartBtInt)).(wire := s.o.wire + Greeting(c, s, f), lastSent := h.s.o.lastSent)
            && h.s.link.receivedLogon && h.s.link.sentLogon && h.s.link.connected
            && h.s.clock.heartBtInt == NegotiatedInterval(c, s.clock.heartBtInt, f.msg.heartBtInt)
            && h.s.i.delivered == s.i.delivered
            && (if n == s.i.nextTarget then h.s.i.nextTarget == n + 1 && h.s.rec == s.rec
                else
                  && h.s.i.nextTarget == s.i.nextTarget
                  && h.s.rec == s.rec.(stash := map[n := f.(checks := f.later)],
                                       resendRange := Some(Range(s.i.nextTarget, n - 1, n - 1))))
  {
    hide AcceptLogon, Greeting, Enroll;
    var v := Heard(s, f.msg);
    LogonIsAccepted(c, v, f);
    assert Process(c, s, f) == AcceptLogon(c, v, f);
    assert Greeting(c, v, f) == Greeting(c, s, f) by { SameGreeting(c, s, v, f); }
  }

  lemma SameGreeting(c: Config, s: State, v: State, f: Inbound)
    requires v.o == s.o && v.link == s.link && v.clock == s.clock && v.i.nextTarget == s.i.nextTarget
    ensures Greeting(c, v, f) == Greeting(c, s, f) && LogonReply(c, v, f.msg.heartBtInt) == LogonReply(c, s, f.msg.heartBtInt)
  {
  }

  lemma {:induction false} LogonIsAccepted(c: Config, s: State, f: Inbound)
    requires Awaiting(c, s)
    requires f.msg.kind.Logon? && !f.msg.resetFlag && f.msg.seqNum.Some? && f.msg.seqNum.value >= s.i.nextTarget
    requires f.msg.nextExpected.Some? && f.msg.nextExpected.value <= s.o.nextSender
    ensures var h := AcceptLogon(c, s, f);
            var n := f.msg.seqNum.value;
            && !h.dropped
            && h.s.o == Enroll(c, s.o, LogonReply(c, s, f.msg.heartBtInt)).(wire := s.o.wire + Greeting(c, s, f), lastSent := h.s.o.lastSent)
            && h.s.link.receivedLogon && h.s.link.sentLogon && h.s.link.connected
            && h.s.clock.heartBtInt == NegotiatedInterval(c, s.clock.heartBtInt, f.msg.heartBtInt)
            && h.s.i.delivered == s.i.delivered
            && (if n == s.i.nextTarget then h.s.i.nextTarget == n + 1 && h.s.rec == s.rec
                else
                  && h.s.i.nextTarget == s.i.nextTarget
                  && h.s.rec == s.rec.(stash := map[n := f.(checks := f.later)],
                                       resendRange := Some(Range(s.i.nextTarget, n - 1, n - 1))))
  {
    hide ResendAnswer, Enroll, SequenceLogon, NegotiatedInterval, WholeSeconds;
    EnrollExtends(c, s.o, LogonReply(c, s, f.msg.heartBtInt));
    EnrollCounts(c, s.o, LogonReply(c, s, f.msg.heartBtInt));
    var s1 := s.(link := s.link.(receivedLogon := true));
    LogonIsSequenced(c, AnswerLogon(c, s1, f.msg), f);
  }

  /** In 789 mode a Logon is counted when in sequence, and otherwise stashed without a request. */
  lemma LogonIsSequenced(c: Config, s: State, f: Inbound)
    requires c.nextExpected && !f.msg.resetFlag && f.msg.seqNum.Some? && f.msg.seqNum.value >= s.i.nextTarget
    ensures var n := f.msg.seqNum.value;
            SequenceLogon(c, s, f) ==
            if n == s.i.nextTarget then Handled(IncrTarget(s), false)
            else Handled(s.(rec := s.rec.(stash := s.rec.stash[n := f.(checks := f.later)],
                                          resendRange := Some(Range(s.i.nextTarget, n - 1, n - 1)))), false)
  {
  }

  /** The number an acceptor announces is the one it will accept next if and only if the Logon it
      answers was in sequence: the reply counts a Logon that, when too high, is stashed instead. */
  lemma {:induction false} AnnouncesNextIff(c: Config, s: State, f: Inbound)
    requires Awaiting(c, s) && Passes(c, f.checks)
    requires f.msg.kind.Logon? && !f.msg.resetFlag && f.msg.seqNum.Some? && f.msg.seqNum.value >= s.i.nextTarget
    requires f.msg.nextExpected.Some? ==> f.msg.nextExpected.value <= s.o.nextSender
    ensures var h := Process(c, s, f);
            && !h.dropped && |h.s.o.wire| > |s.o.wire|
            && (h.s.o.wire[|s.o.wire|].nextExpected == Some(h.s.i.nextTarget as nat) <==> f.msg.seqNum == Some(s.i.nextTarget as nat))
  {
    hide ResendAnswer, Enroll, SendResendRequest;
    EnrollExtends(c, s.o, LogonReply(c, s, f.msg.heartBtInt));
  }

  lemma EnrollCounts(c: Config, o: Outgoing, m: Msg)
    ensures Enroll(c, o, m).nextSender == o.nextSender + 1
    ensures c.persist ==> Enroll(c, o, m).saved == o.saved[o.nextSender as nat := WithNextNumber(o, m)]
    ensures !c.persist ==> Enroll(c, o, m).saved == o.saved
  {
  }

  // ----- the initiator catches up -----

  lemma {:induction false} RunJoin(c: Config, s: State, a: seq<Timed>, b: seq<Timed>)
    requires StashKeyed(s.rec.stash)
    ensures Run(c, s, a + b) == Run(c, Run(c, s, a), b)
  {
    hide Apply;
    if b == [] {
      assert a + b == a;
    } else {
      var last := |b| - 1;
      assert (a + b)[..|a + b| - 1] == a + b[..last];
      RunJoin(c, s, a, b[..last]);
    }
  }

  lemma {:induction false} RunOne(c: Config, s: State, es: seq<Timed>)
    requires StashKeyed(s.rec.stash) && |es| == 1
    ensures Run(c, s, es) == Apply(c, s, es[0])
  {
    hide Apply;
    assert Run(c, s, es[..0]) == s;
  }

  /** Waiting for the answer to its Logon. */
  ghost predicate Opened(c: Config, s: State) {
    && c.initiator && NegotiatesGaps(c) && s.rec.stash == map[] && s.rec.resendRange.None?
    && s.link == Link(true, false, true, false, false, false, s.link.pendingLogon)
  }

  /** What a 789 below the next sender number makes a session send again. */
  function Owed(c: Config, o: Outgoing, f: Inbound): seq<Msg> {
    if f.msg.nextExpected.Some? && f.msg.nextExpected.value < o.nextSender
    then ResendAnswer(c, o.saved, f.checks.resendVetoes, f.msg.nextExpected.value, o.nextSender - 1) else []
  }

  /** The answer may be ahead of what is expected: then it is stashed and no request is made. */
  lemma {:induction false} InitiatorHears(c: Config, s: State, f: Inbound)
    requires Opened(c, s) && Passes(c, f.checks)
    requires f.msg.kind.Logon? && !f.msg.resetFlag
    requires f.msg.nextExpected.Some? && f.msg.nextExpected.value <= s.o.nextSender
    requires f.msg.seqNum.Some? && f.msg.seqNum.value >= s.i.nextTarget
    ensures var h := Process(c, s, f);
            var n := f.msg.seqNum.value;
            && !h.dropped && h.s.link.connected && LoggedOn(h.s.link)
            && h.s.o == s.o.(wire := s.o.wire + Owed(c, s.o, f), lastSent := h.s.o.lastSent)
            && h.s.i.delivered == s.i.delivered && h.s.rec.asked == s.rec.asked && h.s.clock == s.clock
            && (n == s.i.nextTarget ==> h.s.i.nextTarget == n + 1 && h.s.rec == s.rec)
            && (n > s.i.nextTarget ==>
                  && h.s.i.nextTarget == s.i.nextTarget && h.s.rec.stash == map[n := f.(checks := f.later)]
                  && h.s.rec.resendRange == Some(Range(s.i.nextTarget, n - 1, n - 1)))
  {
    hide Send, SendResendRequest, ResendAnswer;
    assert s.o.wire + [] == s.o.wire;
  }

  /** Behind by [lo, n), with the peer's Logon `n` stashed. */
  ghost predicate Behind(s: State, lo: nat, n: nat) {
    && s.link.connected && s.link.receivedLogon && s.i.nextTarget == lo < n
    && s.rec.stash.Keys == {n} && s.rec.stash[n].msg.kind.Logon? && s.rec.stash[n].msg.seqNum == Some(n)
    && s.rec.resendRange == Some(Range(lo, n - 1, n - 1))
  }

  /** Nothing stashed, nothing outstanding, and nothing was sent to get there. */
  ghost predicate CaughtUp(s: State, r: State, n: nat) {
    && r.i.nextTarget == n + 1 && r.rec.stash == map[] && r.rec.resendRange.None?
    && r.o == s.o && r.rec.asked == s.rec.asked && r.link == s.link
  }

  /** The retransmission starts the final GapFill below the stashed Logon: the GapFill supersedes it. */
  lemma {:induction false} FinalGapFillSupersedes(c: Config, s: State, f: Inbound, n: nat)
    requires IsGapFill(f.msg) && Passes(c, f.checks) && s.link.receivedLogon
    requires f.msg.newSeqNo.value == n + 1 && f.msg.seqNum == Some(s.i.nextTarget as nat) && s.i.nextTarget < n
    requires s.rec.stash.Keys == {n} && StashKeyed(s.rec.stash)
    requires s.rec.resendRange.Some? ==> s.rec.resendRange.value.fullEnd == s.rec.resendRange.value.chunkEnd == n - 1
    ensures var h := Process(c, s, f);
            && !h.dropped && StashKeyed(h.s.rec.stash)
            && CaughtUp(s, Settle(c, h.s), n) && Settle(c, h.s).i.delivered == s.i.delivered
  {
    hide Send, SendResendRequest;
    var h := Process(c, s, f);
    assert h.s.rec.stash == map[];
    SettleIsQuiet(c, h.s);
  }

  /** The resends reach up to the stashed Logon: replaying it completes the recovery. */
  lemma {:induction false} StashedLogonCompletes(c: Config, s: State, n: nat)
    requires s.i.nextTarget == n && s.rec.stash.Keys == {n} && StashKeyed(s.rec.stash) && s.rec.stash[n].msg.kind.Logon?
    requires s.rec.resendRange.Some? ==> s.rec.resendRange.value.fullEnd == s.rec.resendRange.value.chunkEnd == n - 1
    ensures var r := Settle(c, s);
            CaughtUp(s, r, n) && r.i.delivered == s.i.delivered && r.rec.lastWasQueued
  {
    hide Process, SendResendRequest;
    var s1 := s.(rec := s.rec.(lastWasQueued := false));
    var s2 := IncrTarget(s1.(rec := s1.rec.(stash := s1.rec.stash - {n}, lastWasQueued := true)));
    assert s2.rec.stash == map[];
    assert Drain(c, s2) == Handled(s2, false);
    assert Drain(c, s1) == Drain(c, s2);
  }

  /** ... and the final GapFill, now too low, is obeyed without effect. */
  lemma {:induction false} FinalGapFillIsIdle(c: Config, s: State, f: Inbound, n: nat)
    requires IsGapFill(f.msg) && Passes(c, f.checks) && s.link.receivedLogon && s.rec.lastWasQueued
    requires f.msg.newSeqNo.value == n + 1 && f.msg.seqNum == Some(n)
    requires s.i.nextTarget == n + 1 && s.rec.stash == map[] && s.rec.resendRange.None?
    ensures var h := Process(c, s, f);
            && !h.dropped && StashKeyed(h.s.rec.stash)
            && CaughtUp(s, Settle(c, h.s), n) && Settle(c, h.s).i.delivered == s.i.delivered
  {
    hide Send, SendResendRequest;
    var h := Process(c, s, f);
    SettleIsQuiet(c, h.s);
  }

  /** Whichever of the two happens, the initiator ends caught up. */
  lemma {:induction false} CatchUp(c: Config, s: State, es: seq<Timed>, ms: seq<Msg>, lo: nat, n: nat)
    requires Behind(s, lo, n) && Arrivals(c, es, ms)
    requires Tiles(ms, lo, n + 1) && (forall j | 0 <= j < |ms| :: Receivable(ms[j]))
    requires ms != [] && ms[|ms| - 1].kind.SequenceReset?
    ensures CaughtUp(s, Run(c, s, es), n) && Run(c, s, es).i.delivered == s.i.delivered + Deliveries(ms)
  {
    hide Process, Settle, Tiles;
    var last := |ms| - 1;
    TilesPrefix(ms, lo, n + 1);
    var g := First(ms[last]);
    var f := es[last].event.frame.inbound;
    if g < n {
      ReceiveTiles(c, s, es[..last], ms[..last], lo, g);
      FinalGapFillSupersedes(c, Clocked(Run(c, s, es[..last]), es[last]), f, n);
    } else {
      if last == 0 {
        TilesOfNothing(lo, g);
      }
      var mid := LastTile(c, s, es[..last], ms[..last], lo, n);
      StashedLogonCompletes(c, mid, n);
      FinalGapFillIsIdle(c, Clocked(Run(c, s, es[..last]), es[last]), f, n);
    }
  }

  /** A range whose last number is not sent again ends in a GapFill. */
  lemma {:induction false} ReplayEndsInGapFill(saved: map<nat, Msg>, vetoes: set<nat>, next: nat, end: nat, gap: Option<nat>)
    requires next <= end + 1 && (next > end ==> gap.Some?) && !Resends(saved, vetoes, end)
    ensures var ms := Replay(saved, vetoes, next, end, gap); ms != [] && ms[|ms| - 1].kind.SequenceReset?
    decreases end + 1 - next
  {
    if next <= end {
      ReplayEndsInGapFill(saved, vetoes, next + 1, end,
                          if Resends(saved, vetoes, next) then None else if gap.Some? then gap else Some(next));
    }
  }

  /** The acceptor's reply is administrative, so the retransmission covers it with a GapFill. */
  lemma {:induction false} GreetingTiles(c: Config, s: State, f: Inbound)
    requires OutgoingOk(c, s.o) && Typed(s.o.saved)
    requires f.msg.nextExpected.Some? && f.msg.nextExpected.value < s.o.nextSender
    ensures var ms := Greeting(c, s, f)[1..];
            var o := Enroll(c, s.o, LogonReply(c, s, f.msg.heartBtInt));
            var messages := Sendable(c, o.saved, f.checks.resendVetoes, f.msg.nextExpected.value, s.o.nextSender);
            && ms != [] && ms[|ms| - 1].kind.SequenceReset?
            && Tiles(ms, f.msg.nextExpected.value, s.o.nextSender + 1) && (forall j | 0 <= j < |ms| :: Receivable(ms[j]))
            && (forall j | 0 <= j < |messages| :: IsTile(messages[j]))
            && Deliveries(ms) == Deliveries(messages)
  {
    hide Enroll, Tiles, Deliveries, Sendable, Replay, OutgoingOk;
    var o := Enroll(c, s.o, LogonReply(c, s, f.msg.heartBtInt));
    EnrollKeeps(c, s.o, LogonReply(c, s, f.msg.heartBtInt));
    EnrollCounts(c, s.o, LogonReply(c, s, f.msg.heartBtInt));
    assert Typed(o.saved);
    AnswerIsReceivable(c, o, f.checks.resendVetoes, f.msg.nextExpected.value, s.o.nextSender);
    if c.persist {
      ReplayEndsInGapFill(o.saved, f.checks.resendVetoes, f.msg.nextExpected.value, s.o.nextSender, None);
    }
  }

  lemma AcceptorAttaches(c: Config, s: State, e: Timed)
    requires !c.initiator && NegotiatesGaps(c) && Idle(s) && e.event.Attach?
    ensures var r := Apply(c, s, e);
            && Awaiting(c, r) && r.o == s.o.(lastSent := r.o.lastSent) && r.rec == s.rec
            && r.i.nextTarget == s.i.nextTarget && r.i.delivered == s.i.delivered
            && r.clock.heartBtInt == s.clock.heartBtInt
  {
  }

  /** The acceptor's whole turn: it has sent its greeting, and counted the Logon or stashed it. */
  lemma {:induction false} AcceptorTurn(c: Config, s: State, e: Timed, f: Inbound)
    requires Awaiting(c, s) && e.event == Receive(Parsed(f)) && Passes(c, f.checks)
    requires f.msg.kind.Logon? && !f.msg.resetFlag && f.msg.seqNum.Some? && f.msg.seqNum.value >= s.i.nextTarget
    requires f.msg.nextExpected.Some? && f.msg.nextExpected.value <= s.o.nextSender
    ensures var r := Apply(c, s, e);
            var q := Clocked(s, e);
            var n := f.msg.seqNum.value;
            && r.o == Enroll(c, s.o, LogonReply(c, q, f.msg.heartBtInt)).(wire := s.o.wire + Greeting(c, q, f), lastSent := r.o.lastSent)
            && LoggedOn(r.link) && r.link.connected && r.rec.asked == s.rec.asked && r.i.delivered == s.i.delivered
            && r.clock.heartBtInt == NegotiatedInterval(c, s.clock.heartBtInt, f.msg.heartBtInt)
            && (if n == s.i.nextTarget then r.i.nextTarget == n + 1 && r.rec.stash == map[] && r.rec.resendRange.None?
                else Behind(r, s.i.nextTarget, n))
  {
    hide Process, Settle, Greeting, Enroll;
    var q := Clocked(s, e);
    AcceptorGreets(c, q, f);
    var h := Process(c, q, f);
    SettleIsQuiet(c, h.s);
    if f.msg.seqNum.value > s.i.nextTarget {
      SettleKeepsRange(c, h.s);
    }
  }

  /** The initiator's reaction to the reply alone. */
  lemma {:induction false} InitiatorHearsReply(c: Config, s: State, e: Timed, f: Inbound)
    requires Opened(c, s) && Passes(c, f.checks) && e.event == Receive(Parsed(f))
    requires f.msg.kind.Logon? && !f.msg.resetFlag
    requires f.msg.nextExpected.Some? && f.msg.nextExpected.value <= s.o.nextSender
    requires f.msg.seqNum.Some? && f.msg.seqNum.value >= s.i.nextTarget
    ensures var r := Apply(c, s, e);
            var n := f.msg.seqNum.value;
            && r.o == s.o.(wire := s.o.wire + Owed(c, s.o, f), lastSent := r.o.lastSent)
            && LoggedOn(r.link) && r.i.delivered == s.i.delivered && r.rec.asked == s.rec.asked
            && (if n > s.i.nextTarget then Behind(r, s.i.nextTarget, n)
                else r.i.nextTarget == n + 1 && r.rec.stash == map[] && r.rec.resendRange.None?)
  {
    hide Process, Settle, Owed;
    InitiatorHears(c, Clocked(s, e), f);
    var h := Process(c, Clocked(s, e), f);
    SettleIsQuiet(c, h.s);
    if f.msg.seqNum.value > s.i.nextTarget {
      SettleKeepsRange(c, h.s);
    }
  }

  /** A range that is not exhausted stays outstanding. */
  lemma {:induction false} SettleKeepsRange(c: Config, s: State)
    requires StashKeyed(s.rec.stash) && s.i.nextTarget !in s.rec.stash
    requires s.rec.resendRange.Some? && s.i.nextTarget <= s.rec.resendRange.value.chunkEnd
    ensures Settle(c, s).rec.resendRange == s.rec.resendRange
  {
  }

  /** The initiator hears the whole greeting, whether or not it was behind. */
  lemma {:induction false} InitiatorTurn(c: Config, s: State, es: seq<Timed>, ms: seq<Msg>)
    requires Opened(c, s) && Arrivals(c, es, ms) && ms != []
    requires ms[0].kind.Logon? && !ms[0].resetFlag
    requires ms[0].nextExpected.Some? && ms[0].nextExpected.value <= s.o.nextSender
    requires ms[0].seqNum.Some? && ms[0].seqNum.value >= s.i.nextTarget
    requires ms[0].seqNum.value == s.i.nextTarget ==> |ms| == 1
    requires ms[0].seqNum.value > s.i.nextTarget ==>
               && |ms| > 1 && ms[|ms| - 1].kind.SequenceReset?
               && Tiles(ms[1..], s.i.nextTarget, ms[0].seqNum.value + 1)
               && (forall j | 0 <= j < |ms[1..]| :: Receivable(ms[1..][j]))
    requires forall j | 0 <= j < |ms[1..]| :: IsTile(ms[1..][j])
    ensures var r := Run(c, s, es);
            && r.i.nextTarget == ms[0].seqNum.value + 1 && r.rec.stash == map[] && r.rec.resendRange.None?
            && r.o == s.o.(wire := s.o.wire + Owed(c, s.o, es[0].event.frame.inbound), lastSent := r.o.lastSent)
            && r.rec.asked == s.rec.asked && LoggedOn(r.link)
            && r.i.delivered == s.i.delivered + Deliveries(ms[1..])
  {
    hide Apply, Tiles, Owed;
    InitiatorHearsReply(c, s, es[0], es[0].event.frame.inbound);
    RunOne(c, s, es[..1]);
    assert es == es[..1] + es[1..];
    RunJoin(c, s, es[..1], es[1..]);
    if |ms| > 1 {
      CatchUp(c, Run(c, s, es[..1]), es[1..], ms[1..], s.i.nextTarget, ms[0].seqNum.value);
    }
  }

  /** Two idle sessions connect, the initiator's Logon reaches the acceptor, and everything the acceptor
      sends in reply reaches the initiator. Neither has seen more than the other has sent. */
  ghost predicate LogsOn(
    ci: Config, i: State, ei: Timed, ca: Config, a: State, ea: Timed, er: Timed, f: Inbound, es: seq<Timed>) {
    && ci.initiator && NegotiatesGaps(ci) && Idle(i) && ei.event.Attach? && IsInRange(ci.logonSchedule, ei.utc)
    && !ca.initiator && NegotiatesGaps(ca) && Idle(a) && ea.event.Attach?
    && OutgoingOk(ca, a.o) && Typed(a.o.saved)
    && a.i.nextTarget <= i.o.nextSender && i.i.nextTarget <= a.o.nextSender
    && er.event == Receive(Parsed(f)) && Passes(ca, f.checks)
    && Transmitted(i, Run(ci, i, [ei])) == [f.msg]
    && Arrivals(ci, es, Transmitted(Run(ca, a, [ea]), Run(ca, a, [ea, er])))
  }

  /** What the initiator's application had missed. */
  function Missed(ca: Config, i: State, a: State, f: Inbound, saved: map<nat, Msg>): seq<Msg> {
    if i.i.nextTarget < a.o.nextSender then Sendable(ca, saved, f.checks.resendVetoes, i.i.nextTarget, a.o.nextSender) else []
  }

  /** The first half of the exchange: the Logon arrives and is answered. */
  lemma {:induction false} LogonIsAnswered(
    ci: Config, i: State, ei: Timed, ca: Config, a: State, ea: Timed, er: Timed, f: Inbound, es: seq<Timed>)
    requires LogsOn(ci, i, ei, ca, a, ea, er, f, es)
    ensures var i1, a1, a2 := Run(ci, i, [ei]), Run(ca, a, [ea]), Run(ca, a, [ea, er]);
            var q := Clocked(a1, er);
            && Opened(ci, i1) && i1.i.nextTarget == i.i.nextTarget && i1.i.delivered == i.i.delivered
            && i1.rec == i.rec && i1.o.nextSender == i.o.nextSender + 1 && i1.o.wire == i.o.wire + [f.msg]
            && f.msg.nextExpected == Some(i.i.nextTarget as nat) && f.msg.heartBtInt == Some(WholeSeconds(i.clock.heartBtInt))
            && a1.o == a.o.(lastSent := a1.o.lastSent) && q.i.nextTarget == a.i.nextTarget && !q.link.receivedReset
            && Transmitted(a1, a2) == Greeting(ca, q, f)
            && a2.o.nextSender == a.o.nextSender + 1 && a2.o.saved == Enroll(ca, q.o, LogonReply(ca, q, f.msg.heartBtInt)).saved
            && LoggedOn(a2.link) && a2.link.connected && a2.rec.asked == a.rec.asked && a2.i.delivered == a.i.delivered
            && a2.clock.heartBtInt == NegotiatedInterval(ca, a.clock.heartBtInt, f.msg.heartBtInt)
            && (if a.i.nextTarget == i.o.nextSender
                then a2.i.nextTarget == i.o.nextSender + 1 && a2.rec.stash == map[] && a2.rec.resendRange.None?
                else Behind(a2, a.i.nextTarget, i.o.nextSender))
  {
    hide Apply, Run, Enroll, IsInRange, OutgoingOk, ResendAnswer, NegotiatedInterval, WholeSeconds, Typed, Passes, Greeting;
    RunOne(ci, i, [ei]);
    RunOne(ca, a, [ea]);
    var a1 := Run(ca, a, [ea]);
    RunOne(ca, a1, [er]);
    RunJoin(ca, a, [ea], [er]);
    assert [ea] + [er] == [ea, er];
    InitiatorOpens(ci, i, ei);
    AcceptorAttaches(ca, a, ea);
    AcceptorTurn(ca, a1, er, f);
    EnrollCounts(ca, a1.o, LogonReply(ca, Clocked(a1, er), f.msg.heartBtInt));
  }

  /** The exchange, whether or not the acceptor is behind. */
  lemma {:induction false} LogonExchange(
    ci: Config, i: State, ei: Timed, ca: Config, a: State, ea: Timed, er: Timed, f: Inbound, es: seq<Timed>)
    requires LogsOn(ci, i, ei, ca, a, ea, er, f, es)
    ensures var i1 := Run(ci, i, [ei]);
            var a2 := Run(ca, a, [ea, er]);
            var r := Run(ci, i, [ei] + es);
            var missed := Missed(ca, i, a, f, a2.o.saved);
            && r.i.nextTarget == a2.o.nextSender && r.o.nextSender == i.o.nextSender + 1
            && r.rec.stash == map[] && r.rec.resendRange.None? && LoggedOn(r.link) && r.rec.asked == i.rec.asked
            && es != [] && es[0].event.frame.inbound.msg.nextExpected == Some(a.i.nextTarget + 1)
            && r.o.wire == i1.o.wire + Owed(ci, i1.o, es[0].event.frame.inbound)
            && (forall j | 0 <= j < |missed| :: IsTile(missed[j]))
            && r.i.delivered == i.i.delivered + Deliveries(missed)
  {
    hide Apply, Run, Enroll, Tiles, Deliveries, Sendable, IsInRange, OutgoingOk, ResendAnswer, Owed, WholeSeconds;
    LogonIsAnswered(ci, i, ei, ca, a, ea, er, f, es);
    RunJoin(ci, i, [ei], es);
    var i1, a1 := Run(ci, i, [ei]), Run(ca, a, [ea]);
    var q := Clocked(a1, er);
    TransmitKeeps(ca, a.o, [], a1.o.lastSent);
    if i.i.nextTarget < a.o.nextSender {
      GreetingTiles(ca, q, f);
    }
    InitiatorTurn(ci, i1, es, Greeting(ca, q, f));
  }

  /** The 789 handshake. The acceptor is in sequence with the initiator's Logon and the initiator is behind
      by any amount, possibly none. When the initiator has received everything the acceptor sent in
      reply, the two agree on both counters, nothing is stashed or outstanding, the initiator has asked
      for nothing and sent nothing beyond its Logon, its application has seen exactly the messages it had
      missed, and the acceptor keeps the initiator's heartbeat interval unless it has its own. */
  lemma {:induction false} LogonRecoversGap(
    ci: Config, i: State, ei: Timed, ca: Config, a: State, ea: Timed, er: Timed, f: Inbound, es: seq<Timed>)
    requires LogsOn(ci, i, ei, ca, a, ea, er, f, es) && a.i.nextTarget == i.o.nextSender
    ensures var a2 := Run(ca, a, [ea, er]);
            var r := Run(ci, i, [ei] + es);
            var missed := Missed(ca, i, a, f, a2.o.saved);
            && r.i.nextTarget == a2.o.nextSender && a2.i.nextTarget == r.o.nextSender
            && r.rec.stash == map[] && r.rec.resendRange.None? && LoggedOn(r.link) && LoggedOn(a2.link)
            && r.rec.asked == i.rec.asked && Transmitted(i, r) == [f.msg]
            && (forall j | 0 <= j < |missed| :: IsTile(missed[j]))
            && r.i.delivered == i.i.delivered + Deliveries(missed)
            && a2.clock.heartBtInt == (if ca.heartBtOverride.Some? then ca.heartBtOverride.value as real
                                       else WholeSeconds(i.clock.heartBtInt) as real)
  {
    hide Run, Tiles, Deliveries, Sendable, OutgoingOk, WholeSeconds;
    LogonIsAnswered(ci, i, ei, ca, a, ea, er, f, es);
    LogonExchange(ci, i, ei, ca, a, ea, er, f, es);
    assert Run(ci, i, [ei] + es).o.wire == Run(ci, i, [ei]).o.wire;
  }

  // ----- an acceptor that is behind -----

  /** A resent message or a GapFill with a number above the one expected. */
  predicate Ahead(m: Msg, expected: nat) {
    m.seqNum.Some? && m.seqNum.value > expected && (m.kind.App? || (m.kind.SequenceReset? && m.gapFill))
  }

  /** What an acceptor cannot get out of: it expects a number that nobody will send, and the range it has
      recorded keeps it from asking. */
  ghost predicate Stuck(s: State) {
    && s.link.connected && s.link.receivedLogon && StashKeyed(s.rec.stash) && s.i.nextTarget !in s.rec.stash
    && s.rec.resendRange.Some? && s.i.nextTarget <= s.rec.resendRange.value.chunkEnd
  }

  lemma {:induction false} AheadIsStashed(c: Config, s: State, e: Timed, f: Inbound)
    requires Stuck(s) && !c.redundantRequests && Passes(c, f.checks) && e.event == Receive(Parsed(f))
    requires Ahead(f.msg, s.i.nextTarget)
    ensures var r := Apply(c, s, e);
            && Stuck(r) && r.i == s.i && r.o == s.o && r.link == s.link
            && r.rec.asked == s.rec.asked && r.rec.resendRange == s.rec.resendRange
  {
    hide Send, SendResendRequest, Settle;
    var q := Clocked(s, e);
    var h := Process(c, q, f);
    assert !h.dropped && h.s == Stashed(q, f, f.msg.seqNum.value);
    SettleKeepsRange(c, h.s);
    SettleStaysSilent(c, h.s);
  }

  lemma {:induction false} SettleStaysSilent(c: Config, s: State)
    requires Stuck(s)
    ensures var r := Settle(c, s);
            r.o == s.o && r.i == s.i && r.link == s.link && r.rec.asked == s.rec.asked && r.rec.stash == s.rec.stash
  {
  }

  /** Whatever arrives ahead of the number expected changes nothing that could be observed. */
  lemma {:induction false} StaysStuck(c: Config, s: State, es: seq<Timed>, ms: seq<Msg>)
    requires Stuck(s) && !c.redundantRequests && Arrivals(c, es, ms)
    requires forall j | 0 <= j < |ms| :: Ahead(ms[j], s.i.nextTarget)
    ensures var r := Run(c, s, es);
            && Stuck(r) && r.i == s.i && r.o == s.o && r.link == s.link
            && r.rec.asked == s.rec.asked && r.rec.resendRange == s.rec.resendRange
  {
    hide Apply, Passes;
    if es != [] {
      var last := |es| - 1;
      assert Arrivals(c, es[..last], ms[..last]);
      StaysStuck(c, s, es[..last], ms[..last]);
      assert Ahead(ms[last], s.i.nextTarget);
      AheadIsStashed(c, Run(c, s, es[..last]), es[last], es[last].event.frame.inbound);
    }
  }

  lemma {:induction false} TilesBegin(ms: seq<Msg>, lo: nat, hi: nat, j: nat)
    requires Tiles(ms, lo, hi) && j < |ms|
    ensures First(ms[j]) >= lo
  {
    if j > 0 {
      TilesBegin(ms, lo, hi, j - 1);
      assert After(ms[j - 1]) == First(ms[j]);
    }
  }

  /** What the initiator sends again starts one number behind what the acceptor waits for. */
  lemma {:induction false} OwedIsAhead(c: Config, o: Outgoing, f: Inbound, lo: nat)
    requires OutgoingOk(c, o) && Typed(o.saved) && f.msg.nextExpected == Some(lo + 1)
    ensures forall j | 0 <= j < |Owed(c, o, f)| :: Ahead(Owed(c, o, f)[j], lo)
  {
    hide OutgoingOk, Tiles, ResendAnswer, Deliveries, Sendable;
    if lo + 1 < o.nextSender {
      var ms := Owed(c, o, f);
      AnswerIsReceivable(c, o, f.checks.resendVetoes, lo + 1, o.nextSender - 1);
      forall j | 0 <= j < |ms| ensures Ahead(ms[j], lo) {
        TilesBegin(ms, lo + 1, o.nextSender, j);
        assert Receivable(ms[j]);
      }
    }
  }

  /** The handshake recovers both directions if and only if the acceptor was in sequence. Everything the
      initiator sends in response to the greeting reaches the acceptor too. An acceptor that was behind
      has announced one number too many: it stays where it was, delivers nothing, sends nothing and asks
      for nothing, while the range it recorded suppresses every request. */
  lemma {:induction false} LogonRecoversIff(
    ci: Config, i: State, ei: Timed, ca: Config, a: State, ea: Timed, er: Timed, f: Inbound, es: seq<Timed>, acks: seq<Timed>)
    requires LogsOn(ci, i, ei, ca, a, ea, er, f, es)
    requires OutgoingOk(ci, i.o) && Typed(i.o.saved) && !ca.redundantRequests
    requires Arrivals(ca, acks, Transmitted(Run(ci, i, [ei]), Run(ci, i, [ei] + es)))
    ensures var a2 := Run(ca, a, [ea, er]);
            var r := Run(ci, i, [ei] + es);
            var a3 := Run(ca, a, [ea, er] + acks);
            && r.i.nextTarget == a3.o.nextSender
            && (a3.i.nextTarget == r.o.nextSender <==> a.i.nextTarget == i.o.nextSender)
            && (a.i.nextTarget < i.o.nextSender ==>
                  && a3.i.nextTarget == a.i.nextTarget && a3.i.delivered == a.i.delivered
                  && a3.o == a2.o && a3.rec.asked == a.rec.asked
                  && a3.rec.resendRange == Some(Range(a.i.nextTarget, i.o.nextSender - 1, i.o.nextSender - 1)))
  {
    hide Run, Tiles, Deliveries, Sendable, OutgoingOk, WholeSeconds, Enroll, NegotiatedInterval;
    LogonIsAnswered(ci, i, ei, ca, a, ea, er, f, es);
    LogonExchange(ci, i, ei, ca, a, ea, er, f, es);
    var i1, a2 := Run(ci, i, [ei]), Run(ca, a, [ea, er]);
    var hi := es[0].event.frame.inbound;
    RunJoin(ca, a, [ea, er], acks);
    if a.i.nextTarget == i.o.nextSender {
      assert acks == [];
      RunNothing(ca, a2);
    } else {
      InitiatorStaysSound(ci, i, ei);
      OwedIsAhead(ci, i1.o, hi, a.i.nextTarget);
      StaysStuck(ca, a2, acks, Owed(ci, i1.o, hi));
    }
  }

  lemma RunNothing(c: Config, s: State)
    requires StashKeyed(s.rec.stash)
    ensures Run(c, s, []) == s
  {
  }

  lemma {:induction false} InitiatorStaysSound(c: Config, s: State, e: Timed)
    requires c.initiator && NegotiatesGaps(c) && Idle(s) && e.event.Attach? && IsInRange(c.logonSchedule, e.utc)
    requires OutgoingOk(c, s.o) && Typed(s.o.saved)
    ensures OutgoingOk(c, Run(c, s, [e]).o) && Typed(Run(c, s, [e]).o.saved)
  {
    hide Apply, Enroll, IsInRange, OutgoingOk;
    RunOne(c, s, [e]);
    InitiatorOpens(c, s, e);
    EnrollKeeps(c, s.o, LogonRequest(c, s));
    EnrollCounts(c, s.o, LogonRequest(c, s));
    assert OutgoingOk(c, Apply(c, s, e).o);
  }
}

/**
 What every event of a session keeps, and what follows for whole runs: in-order at-most-once
 delivery, gap-free numbering of sends, and the stash discipline.
 */
module SessionInvariants {
  import opened Messages
  import opened Schedules
  import opened SessionSpec

  // ----- the invariant -----

  /** The store holds a log of messages from `base` on. */
  ghost predicate Holds(saved: map<nat, Msg>, numbered: seq<Msg>, base: nat) {
    forall k: nat | base <= k < base + |numbered| :: k in saved && saved[k] == numbered[k - base]
  }

  /** A log of messages carries base, base + 1, ... and no possible duplicates. */
  ghost predicate Numbered(numbered: seq<Msg>, base: nat) {
    forall j | 0 <= j < |numbered| :: numbered[j].seqNum == Some(base + j) && !numbered[j].possDup
  }

  /** Messages are saved under their own numbers, all below the next one. */
  ghost predicate SavedBelow(saved: map<nat, Msg>, next: nat) {
    forall k | k in saved :: saved[k].seqNum == Some(k) && 1 <= k < next
  }

  /** A message is the one that took its number in this epoch. */
  ghost predicate Recorded(m: Msg, numbered: seq<Msg>, base: nat) {
    && m.seqNum.Some? && base <= m.seqNum.value < base + |numbered|
    && numbered[m.seqNum.value - base] == m
  }

  /** Whatever this epoch put on the wire is a possible duplicate or took a number of its own, and what
      took a number went out in the order of the numbers, each at most once. */
  ghost predicate WireOk(wire: seq<Msg>, mark: nat, numbered: seq<Msg>, base: nat) {
    && mark <= |wire|
    && (forall j | mark <= j < |wire| && !wire[j].possDup :: Recorded(wire[j], numbered, base))
    && (forall j, k | mark <= j < k < |wire| && !wire[j].possDup && !wire[k].possDup ::
          wire[j].seqNum.value < wire[k].seqNum.value)
  }

  /** The messages of this epoch carry base, base+1, ... and, when persisted, are all retrievable. */
  ghost predicate OutgoingOk(c: Config, o: Outgoing) {
    && o.nextSender == o.base + |o.numbered|
    && Numbered(o.numbered, o.base)
    && SavedBelow(o.saved, o.nextSender)
    && (c.persist ==> Holds(o.saved, o.numbered, o.base))
    && WireOk(o.wire, o.mark, o.numbered, o.base)
  }

  /** Deliveries happened exactly when expected, in strictly ascending order, and never again. */
  ghost predicate IncomingOk(i: Incoming) {
    && (forall j | 0 <= j < |i.delivered| ::
          && i.delivered[j].msg.seqNum == Some(i.delivered[j].expected)
          && i.delivered[j].expected < i.nextTarget)
    && (forall j, k | 0 <= j < k < |i.delivered| :: i.delivered[j].expected < i.delivered[k].expected)
  }

  ghost predicate RangeOk(r: Recovery) {
    r.resendRange.Some? ==> 1 <= r.resendRange.value.begin <= r.resendRange.value.chunkEnd <= r.resendRange.value.fullEnd
  }

  ghost predicate Sound(c: Config, s: State) {
    OutgoingOk(c, s.o) && IncomingOk(s.i) && RangeOk(s.rec) && StashKeyed(s.rec.stash)
  }

  /** Between events nothing stashed is due; within one, the next number may be. */
  ghost predicate StashAbove(s: State) { forall k | k in s.rec.stash :: k > s.i.nextTarget }
  ghost predicate StashReady(s: State) { forall k | k in s.rec.stash :: k >= s.i.nextTarget }

  /** Within an epoch the counters only grow and the logs are only appended to. */
  ghost predicate Evolves(s: State, r: State) {
    && s.clock.epoch <= r.clock.epoch
    && (s.clock.epoch == r.clock.epoch ==>
          && s.i.nextTarget <= r.i.nextTarget && s.i.delivered <= r.i.delivered
          && (forall j | |s.i.delivered| <= j < |r.i.delivered| :: r.i.delivered[j].expected >= s.i.nextTarget)
          && s.o.base == r.o.base && s.o.numbered <= r.o.numbered && s.o.mark == r.o.mark)
    && (s.clock.epoch < r.clock.epoch ==> r.o.base == 1)
    && s.o.wire <= r.o.wire && s.rec.asked <= r.rec.asked
  }

  /** The store's creation time only changes by being stamped with the present. */
  ghost predicate ClockKept(s: Clock, r: Clock) {
    r.utc == s.utc && r.now == s.now && r.scheduledResets == s.scheduledResets && (r.created == s.created || r.created == s.utc)
  }

  /** What a piece of the engine does while the connection stands. */
  ghost predicate Step(c: Config, s: State, r: State) {
    && (Sound(c, s) ==> Sound(c, r))
    && Evolves(s, r)
    && r.link.connected == s.link.connected
    && ClockKept(s.clock, r.clock)
  }

  ghost predicate Settles(s: State, r: State) { StashAbove(s) ==> StashReady(r) }

  lemma Chain(c: Config, s: State, t: State, r: State)
    requires Step(c, s, t) && Step(c, t, r)
    ensures Step(c, s, r)
  {
    hide Sound;
  }

  // ----- outbound pieces -----

  lemma NumberedOneMore(numbered: seq<Msg>, base: nat, m: Msg)
    requires Numbered(numbered, base) && m.seqNum == Some(base + |numbered|) && !m.possDup
    ensures Numbered(numbered + [m], base)
  {
  }

  lemma SavedOneMore(saved: map<nat, Msg>, next: SeqNum, m: Msg)
    requires SavedBelow(saved, next) && m.seqNum == Some(next as nat)
    ensures SavedBelow(saved, next + 1) && SavedBelow(saved[next as nat := m], next + 1)
  {
  }

  lemma HoldsOneMore(saved: map<nat, Msg>, numbered: seq<Msg>, base: nat, m: Msg)
    requires Holds(saved, numbered, base)
    ensures Holds(saved[base + |numbered| := m], numbered + [m], base)
  {
    assert forall j | 0 <= j < |numbered| :: (numbered + [m])[j] == numbered[j];
  }

  lemma WireKeepsNumbers(wire: seq<Msg>, mark: nat, numbered: seq<Msg>, base: nat, m: Msg)
    requires WireOk(wire, mark, numbered, base)
    ensures WireOk(wire, mark, numbered + [m], base)
  {
    forall j | mark <= j < |wire| && !wire[j].possDup ensures Recorded(wire[j], numbered + [m], base) {
      assert Recorded(wire[j], numbered, base);
    }
  }

  lemma WireOneMore(wire: seq<Msg>, mark: nat, numbered: seq<Msg>, base: nat, m: Msg)
    requires WireOk(wire, mark, numbered, base) && m.seqNum == Some(base + |numbered|)
    ensures WireOk(wire + [m], mark, numbered + [m], base)
  {
    WireKeepsNumbers(wire, mark, numbered, base, m);
    assert Recorded(m, numbered + [m], base);
    var w := wire + [m];
    forall j, k | mark <= j < k < |w| && !w[j].possDup && !w[k].possDup ensures w[j].seqNum.value < w[k].seqNum.value {
      assert Recorded(wire[j], numbered, base);
      assert k < |wire| ==> w[k] == wire[k];
    }
  }

  lemma WireTakesDuplicates(wire: seq<Msg>, mark: nat, numbered: seq<Msg>, base: nat, ms: seq<Msg>)
    requires WireOk(wire, mark, numbered, base) && forall m | m in ms :: m.possDup
    ensures WireOk(wire + ms, mark, numbered, base)
  {
    var w := wire + ms;
    forall j | |wire| <= j < |w| ensures w[j].possDup {
      assert w[j] in ms;
    }
  }

  lemma EnrollKeeps(c: Config, o: Outgoing, m: Msg)
    requires OutgoingOk(c, o)
    ensures OutgoingOk(c, Enroll(c, o, m))
    ensures forall t :: OutgoingOk(c, Enroll(c, o, m).(wire := o.wire + [WithNextNumber(o, m)], lastSent := t))
  {
    hide Numbered, SavedBelow, Holds, WireOk;
    NumberedOneMore(o.numbered, o.base, WithNextNumber(o, m));
    SavedOneMore(o.saved, o.nextSender, WithNextNumber(o, m));
    if c.persist {
      HoldsOneMore(o.saved, o.numbered, o.base, WithNextNumber(o, m));
    }
    WireKeepsNumbers(o.wire, o.mark, o.numbered, o.base, WithNextNumber(o, m));
    WireOneMore(o.wire, o.mark, o.numbered, o.base, WithNextNumber(o, m));
  }

  lemma TransmitKeeps(c: Config, o: Outgoing, ms: seq<Msg>, t: real)
    requires OutgoingOk(c, o) && forall m | m in ms :: m.possDup
    ensures OutgoingOk(c, o.(wire := o.wire + ms, lastSent := t)) && OutgoingOk(c, o.(lastSent := t))
  {
    hide Numbered, SavedBelow, Holds, WireOk;
    WireTakesDuplicates(o.wire, o.mark, o.numbered, o.base, ms);
  }

  lemma TransmitStep(c: Config, s: State, ms: seq<Msg>)
    requires forall m | m in ms :: m.possDup
    ensures Step(c, s, TransmitAll(s, ms))
  {
    hide OutgoingOk, IncomingOk, StashKeyed, RangeOk;
    if OutgoingOk(c, s.o) {
      TransmitKeeps(c, s.o, ms, s.clock.now);
    }
  }

  /** All a resend answer consists of is possible duplicates. */
  lemma {:induction false} ReplayIsDuplicate(saved: map<nat, Msg>, vetoes: set<nat>, next: nat, end: nat, gap: Option<nat>)
    requires next <= end + 1
    ensures forall m | m in Replay(saved, vetoes, next, end, gap) :: m.possDup
    decreases end + 1 - next
  {
    if next <= end {
      ReplayIsDuplicate(saved, vetoes, next + 1, end, if Resends(saved, vetoes, next) then None else if gap.Some? then gap else Some(next));
    }
  }

  lemma {:induction false} AnswerIsDuplicate(c: Config, saved: map<nat, Msg>, vetoes: set<nat>, begin: nat, end: nat)
    ensures forall m | m in ResendAnswer(c, saved, vetoes, begin, end) :: m.possDup
  {
    if begin <= end {
      ReplayIsDuplicate(saved, vetoes, begin, end, None);
    }
  }

  /** A send takes the next number and exactly one, unless the application refuses it; then nothing
      happens at all. */
  lemma SendCountsIff(c: Config, s: State, m: Msg, vetoed: bool)
    ensures var r := Send(c, s, m, vetoed);
            if vetoed && !IsAdmin(m.kind) then r == s
            else r.o.nextSender == s.o.nextSender + 1 && r.o.numbered == s.o.numbered + [WithNextNumber(s.o, m)]
  {
  }

  lemma SendStep(c: Config, s: State, m: Msg, vetoed: bool)
    ensures Step(c, s, Send(c, s, m, vetoed))
  {
    hide Enroll, OutgoingOk, IncomingOk, StashKeyed, RangeOk;
    if OutgoingOk(c, s.o) {
      EnrollKeeps(c, s.o, m);
    }
    EnrollExtends(c, s.o, m);
  }

  lemma EnrollExtends(c: Config, o: Outgoing, m: Msg)
    ensures Enroll(c, o, m).base == o.base && Enroll(c, o, m).wire == o.wire
    ensures o.numbered <= Enroll(c, o, m).numbered && Enroll(c, o, m).mark == o.mark
  {
  }

  lemma IncrStep(c: Config, s: State)
    ensures Step(c, s, IncrTarget(s))
  {
    hide OutgoingOk, StashKeyed;
  }

  lemma ResetStep(c: Config, s: State)
    ensures Step(c, s, ResetStore(s))
  {
    hide StashKeyed;
  }

  /** Flags and clocks are free to change. */
  lemma FlagStep(c: Config, s: State, link: Link, clock: Clock)
    requires link.connected == s.link.connected && clock.epoch == s.clock.epoch && ClockKept(s.clock, clock)
    ensures Step(c, s, s.(link := link, clock := clock))
  {
    hide OutgoingOk, IncomingOk, StashKeyed, RangeOk;
  }

  lemma LogoutStep(c: Config, s: State)
    ensures Step(c, s, InitiateLogout(c, s))
  {
    hide Send, Step;
    var s1 := s.(link := s.link.(sentLogout := true));
    FlagStep(c, s, s1.link, s.clock);
    SendStep(c, s1, Plain(Logout), false);
    Chain(c, s, s1, InitiateLogout(c, s));
  }

  lemma RejectStep(c: Config, s: State, offender: Msg)
    ensures Step(c, s, SendReject(c, s, offender))
  {
    hide Send, Step, IncrTarget;
    IncrStep(c, s);
    SendStep(c, s, Plain(Reject), false);
    SendStep(c, IncrTarget(s), Plain(Reject), false);
    Chain(c, s, IncrTarget(s), Send(c, IncrTarget(s), Plain(Reject), false));
  }

  lemma RequestStep(c: Config, s: State, begin: nat, received: nat)
    requires 1 <= begin < received
    ensures Step(c, s, SendResendRequest(c, s, begin, received))
  {
    hide Send, OutgoingOk, IncomingOk, StashKeyed;
    var range := Chunk(c, begin, received - 1);
    var s1 := s.(rec := s.rec.(resendRange := Some(range), asked := s.rec.asked + [range]));
    assert Step(c, s, s1);
    var end := if c.maxResend > 0 then range.chunkEnd else if c.fix42Plus then 0 else 999999;
    var m := Plain(ResendRequest).(beginSeqNo := Some(begin), endSeqNo := Some(end));
    SendStep(c, s1, m, false);
    Chain(c, s, s1, Send(c, s1, m, false));
  }

  lemma ChunkStep(c: Config, s: State)
    ensures Step(c, s, CheckResendChunks(c, s))
  {
    hide SendResendRequest, OutgoingOk, IncomingOk, StashKeyed;
    if s.rec.resendRange.Some? && s.i.nextTarget <= s.rec.resendRange.value.fullEnd {
      RequestStep(c, s, s.i.nextTarget, s.rec.resendRange.value.fullEnd + 1);
    }
  }

  // ----- verification -----

  /** An application message reaches the application only with the number that is due. */
  lemma HeardStep(c: Config, s: State, m: Msg)
    ensures IsAdmin(m.kind) ==> Step(c, s, Heard(s, m))
    ensures IsAdmin(m.kind) || m.seqNum == Some(s.i.nextTarget as nat) ==> Step(c, s, IncrTarget(Heard(s, m)))
  {
    hide OutgoingOk, StashKeyed;
  }

  lemma ConsultStep(c: Config, s: State, f: Inbound)
    requires IsAdmin(f.msg.kind) || f.msg.seqNum == Some(s.i.nextTarget as nat)
    ensures var v := Consult(c, s, f);
            if v.flow.Continue? then v.s == Heard(s, f.msg) else Step(c, s, v.s)
  {
    hide Send, Step;
    var s1 := Heard(s, f.msg);
    HeardStep(c, s, f.msg);
    match f.checks.callback
    case Accept =>
    case RejectLogon =>
      LogoutStep(c, IncrTarget(s1));
      Chain(c, s, IncrTarget(s1), InitiateLogout(c, IncrTarget(s1)));
    case RejectMessage =>
      if f.msg.seqNum == Some(s.i.nextTarget as nat) && !f.msg.kind.Logon? && !f.msg.kind.SequenceReset? {
        SendStep(c, IncrTarget(s1), Plain(Reject), false);
        Chain(c, s, IncrTarget(s1), SendReject(c, s1, f.msg));
      } else {
        RejectStep(c, s1, f.msg);
        Chain(c, s, s1, SendReject(c, s1, f.msg));
      }
    case Unsupported =>
      var m := Plain(if c.fix42Plus then App("j") else Reject);
      SendStep(c, IncrTarget(s1), m, f.checks.replyVetoed);
      Chain(c, s, IncrTarget(s1), SendBusinessReject(c, s1, f.checks.replyVetoed));
  }

  lemma TooHighStep(c: Config, s: State, f: Inbound)
    requires TooHigh(s, f.msg) && !f.msg.kind.Logout?
    ensures Step(c, s, OnTargetTooHigh(c, s, f, f.msg.seqNum.value))
  {
    hide SendResendRequest, OutgoingOk, IncomingOk;
    var s1 := Stashed(s, f, f.msg.seqNum.value);
    assert Step(c, s, s1);
    RequestStep(c, s1, s.i.nextTarget, f.msg.seqNum.value);
    Chain(c, s, s1, SendResendRequest(c, s1, s.i.nextTarget, f.msg.seqNum.value));
  }

  /** A reject followed by a logout, as several checks answer a failure. */
  lemma RejectAndLogoutStep(c: Config, s: State, m: Msg)
    ensures Step(c, s, SendReject(c, s, m)) && Step(c, s, InitiateLogout(c, SendReject(c, s, m)))
  {
    hide SendReject, InitiateLogout, Step;
    RejectStep(c, s, m);
    LogoutStep(c, SendReject(c, s, m));
    Chain(c, s, SendReject(c, s, m), InitiateLogout(c, SendReject(c, s, m)));
  }

  lemma StayStep(c: Config, s: State)
    ensures Step(c, s, s)
  {
  }

  lemma VerifyStep(c: Config, s: State, f: Inbound, checkHigh: bool, checkLow: bool)
    requires (IsAdmin(f.msg.kind) || (checkHigh && checkLow)) && (checkHigh ==> !f.msg.kind.Logout?)
    ensures var v := Verify(c, s, f, checkHigh, checkLow);
            if v.flow.Continue? then
              && v.s == Heard(s, f.msg)
              && (IsAdmin(f.msg.kind) || f.msg.seqNum == Some(s.i.nextTarget as nat))
            else Step(c, s, v.s)
  {
    hide Step, SendReject, InitiateLogout, Consult, OnTargetTooHigh;
    StayStep(c, s);
    RejectAndLogoutStep(c, s, f.msg);
    LogoutStep(c, s);
    if TooHigh(s, f.msg) && !f.msg.kind.Logout? {
      TooHighStep(c, s, f);
    }
    if IsAdmin(f.msg.kind) || f.msg.seqNum == Some(s.i.nextTarget as nat) {
      ConsultStep(c, s, f);
    }
  }

  // ----- handlers -----

  lemma AnswerLogonStep(c: Config, s: State, m: Msg)
    ensures Step(c, s, AnswerLogon(c, s, m))
  {
    hide Send, Step;
    StayStep(c, s);
    if !c.initiator {
      var link := s.link.(sentReset := s.link.sentReset || s.link.receivedReset, sentLogon := true);
      var clock := s.clock.(heartBtInt := NegotiatedInterval(c, s.clock.heartBtInt, m.heartBtInt));
      FlagStep(c, s, link, clock);
      SendStep(c, s.(link := link, clock := clock), LogonReply(c, s, m.heartBtInt), false);
      Chain(c, s, s.(link := link, clock := clock), SendLogonReply(c, s, m.heartBtInt));
    }
    var s1 := if c.initiator then s else SendLogonReply(c, s, m.heartBtInt);
    FlagStep(c, s1, s1.link.(sentReset := false, receivedReset := false), s1.clock);
    Chain(c, s, s1, AnswerLogon(c, s, m));
  }

  lemma SequenceLogonStep(c: Config, s: State, f: Inbound)
    requires !f.msg.kind.Logout?
    ensures Step(c, s, SequenceLogon(c, s, f).s)
  {
    hide OnTargetTooHigh, IncrTarget, OutgoingOk, IncomingOk;
    IncrStep(c, s);
    if TooHigh(s, f.msg) {
      TooHighStep(c, s, f);
    }
  }

  lemma {:induction false} AcceptLogonStep(c: Config, s: State, f: Inbound)
    requires !f.msg.kind.Logout?
    ensures Step(c, s, AcceptLogon(c, s, f).s)
  {
    hide Step, InitiateLogout, AnswerLogon, SequenceLogon, TransmitAll, ResendAnswer;
    var s1 := s.(link := s.link.(receivedLogon := true));
    var peer := PeerExpects(c, f.msg);
    FlagStep(c, s, s1.link, s.clock);
    LogoutStep(c, s1);
    Chain(c, s, s1, InitiateLogout(c, s1));
    var s2 := AnswerLogon(c, s1, f.msg);
    AnswerLogonStep(c, s1, f.msg);
    Chain(c, s, s1, s2);
    var s3 := SequenceLogon(c, s2, f).s;
    SequenceLogonStep(c, s2, f);
    Chain(c, s, s2, s3);
    if peer.Some? {
      var ms := ResendAnswer(c, s3.o.saved, f.checks.resendVetoes, peer.value, s3.o.nextSender - 1);
      AnswerIsDuplicate(c, s3.o.saved, f.checks.resendVetoes, peer.value, s3.o.nextSender - 1);
      TransmitStep(c, s3, ms);
      Chain(c, s, s3, TransmitAll(s3, ms));
    }
  }

  lemma LogonResetsStep(c: Config, s: State, m: Msg)
    ensures Step(c, s, LogonResets(c, s, m).s)
  {
    hide Step, ResetStore;
    var s1 := if m.resetFlag then s.(link := s.link.(receivedReset := true)) else s;
    FlagStep(c, s, s1.link, s.clock);
    var s2 := if m.resetFlag && !s.link.sentReset then ResetStore(s1) else s1;
    ResetStep(c, s1);
    StayStep(c, s1);
    Chain(c, s, s1, s2);
    ResetStep(c, s2);
    Chain(c, s, s2, ResetStore(s2));
  }

  lemma {:induction false} HandleLogonStep(c: Config, s: State, f: Inbound)
    requires f.msg.kind.Logon?
    ensures Step(c, s, HandleLogon(c, s, f).s)
  {
    hide Step, LogonResets, Verify, AcceptLogon, Heard;
    StayStep(c, s);
    var r := LogonResets(c, s, f.msg).s;
    LogonResetsStep(c, s, f.msg);
    VerifyStep(c, r, f, false, true);
    HeardStep(c, r, f.msg);
    var v := Verify(c, r, f, false, true).s;
    Chain(c, s, r, v);
    AcceptLogonStep(c, v, f);
    Chain(c, s, v, AcceptLogon(c, v, f).s);
  }

  lemma HandleCountedStep(c: Config, s: State, f: Inbound)
    requires !f.msg.kind.Logout?
    ensures Step(c, s, HandleCounted(c, s, f).s)
  {
    hide Step, Verify, Heard;
    VerifyStep(c, s, f, true, true);
    HeardStep(c, s, f.msg);
  }

  lemma HandleTestRequestStep(c: Config, s: State, f: Inbound)
    requires f.msg.kind.TestRequest?
    ensures Step(c, s, HandleTestRequest(c, s, f).s)
  {
    hide Step, Verify, Heard, Send, IncrTarget;
    VerifyStep(c, s, f, true, true);
    HeardStep(c, s, f.msg);
    var v := Verify(c, s, f, true, true).s;
    var s1 := Send(c, v, Plain(Heartbeat), false);
    SendStep(c, v, Plain(Heartbeat), false);
    Chain(c, s, v, s1);
    IncrStep(c, s1);
    Chain(c, s, s1, IncrTarget(s1));
  }

  lemma {:induction false} HandleResendRequestStep(c: Config, s: State, f: Inbound)
    requires f.msg.kind.ResendRequest?
    ensures Step(c, s, HandleResendRequest(c, s, f).s)
  {
    hide Step, Verify, Heard, TransmitAll, ResendAnswer, IncrTarget, RequestedEnd;
    VerifyStep(c, s, f, false, false);
    HeardStep(c, s, f.msg);
    var v := Verify(c, s, f, false, false).s;
    var begin := if f.msg.beginSeqNo.Some? then f.msg.beginSeqNo.value else 1;
    var ms := ResendAnswer(c, v.o.saved, f.checks.resendVetoes, begin, RequestedEnd(v.o, f.msg));
    var s1 := TransmitAll(v, ms);
    AnswerIsDuplicate(c, v.o.saved, f.checks.resendVetoes, begin, RequestedEnd(v.o, f.msg));
    TransmitStep(c, v, ms);
    Chain(c, s, v, s1);
    IncrStep(c, s1);
    Chain(c, s, s1, IncrTarget(s1));
  }

  lemma AdvanceStep(c: Config, s: State, n: SeqNum)
    requires s.i.nextTarget <= n
    ensures Step(c, s, AdvanceTo(s, n))
  {
    hide OutgoingOk;
  }

  lemma HandleSequenceResetStep(c: Config, s: State, f: Inbound)
    requires f.msg.kind.SequenceReset?
    ensures Step(c, s, HandleSequenceReset(c, s, f).s)
  {
    hide Step, Verify, Heard, SendReject, AdvanceTo;
    VerifyStep(c, s, f, f.msg.gapFill, f.msg.gapFill);
    HeardStep(c, s, f.msg);
    var v := Verify(c, s, f, f.msg.gapFill, f.msg.gapFill).s;
    RejectStep(c, v, f.msg);
    Chain(c, s, v, SendReject(c, v, f.msg));
    if f.msg.newSeqNo.Some? && f.msg.newSeqNo.value > v.i.nextTarget {
      AdvanceStep(c, v, f.msg.newSeqNo.value);
      Chain(c, s, v, AdvanceTo(v, f.msg.newSeqNo.value));
    }
  }

  lemma HandleLogoutStep(c: Config, s: State, f: Inbound)
    requires f.msg.kind.Logout?
    ensures Step(c, s, HandleLogout(c, s, f).s)
  {
    hide Step, Verify, Heard, InitiateLogout, IncrTarget, ResetStore;
    VerifyStep(c, s, f, false, false);
    HeardStep(c, s, f.msg);
    var v := Verify(c, s, f, false, false).s;
    LogoutStep(c, v);
    StayStep(c, v);
    var s1 := if v.link.sentLogout then v else InitiateLogout(c, v);
    Chain(c, s, v, s1);
    IncrStep(c, s1);
    Chain(c, s, s1, IncrTarget(s1));
    ResetStep(c, IncrTarget(s1));
    Chain(c, s, IncrTarget(s1), ResetStore(IncrTarget(s1)));
  }

  /** Every message, whatever it is and whatever the checks say, keeps the invariant. */
  lemma {:induction false} ProcessStep(c: Config, s: State, f: Inbound)
    ensures Step(c, s, Process(c, s, f).s)
  {
    hide Step, IncrTarget, InitiateLogout, SendReject;
    hide HandleLogon, HandleCounted, HandleTestRequest, HandleResendRequest, HandleSequenceReset, HandleLogout;
    StayStep(c, s);
    IncrStep(c, s);
    LogoutStep(c, IncrTarget(s));
    Chain(c, s, IncrTarget(s), InitiateLogout(c, IncrTarget(s)));
    RejectStep(c, s, f.msg);
    match f.msg.kind
    case Logon => HandleLogonStep(c, s, f);
    case TestRequest => HandleTestRequestStep(c, s, f);
    case ResendRequest => HandleResendRequestStep(c, s, f);
    case SequenceReset => HandleSequenceResetStep(c, s, f);
    case Logout => HandleLogoutStep(c, s, f);
    case _ => HandleCountedStep(c, s, f);
  }

  // ----- the stash discipline -----

  lemma ConsultSettles(c: Config, s: State, f: Inbound)
    ensures Settles(s, Consult(c, s, f).s)
  {
    hide Send;
  }

  lemma VerifySettles(c: Config, s: State, f: Inbound, checkHigh: bool, checkLow: bool)
    ensures Settles(s, Verify(c, s, f, checkHigh, checkLow).s)
  {
    hide Send, Consult;
    ConsultSettles(c, s, f);
  }

  lemma {:induction false} AcceptLogonSettles(c: Config, s: State, f: Inbound)
    ensures Settles(s, AcceptLogon(c, s, f).s)
  {
    hide Send, ResendAnswer, SequenceLogon;
    SequenceLogonSettles(c, AnswerLogon(c, s.(link := s.link.(receivedLogon := true)), f.msg), f);
  }

  lemma SequenceLogonSettles(c: Config, s: State, f: Inbound)
    ensures Settles(s, SequenceLogon(c, s, f).s)
  {
    hide Send;
  }

  lemma {:induction false} HandleLogonSettles(c: Config, s: State, f: Inbound)
    ensures Settles(s, HandleLogon(c, s, f).s)
  {
    hide Verify, AcceptLogon;
    var r := LogonResets(c, s, f.msg).s;
    VerifySettles(c, r, f, false, true);
    var v := Verify(c, r, f, false, true);
    if v.flow.Continue? {
      VerifyContinues(c, r, f, false, true);
      AcceptLogonSettles(c, v.s, f);
    }
  }

  lemma VerifyContinues(c: Config, s: State, f: Inbound, checkHigh: bool, checkLow: bool)
    requires Verify(c, s, f, checkHigh, checkLow).flow.Continue?
    ensures Verify(c, s, f, checkHigh, checkLow).s == Heard(s, f.msg)
  {
    hide Send;
  }

  lemma {:induction false} ProcessSettles(c: Config, s: State, f: Inbound)
    ensures Settles(s, Process(c, s, f).s)
  {
    hide Send, Verify, ResendAnswer, HandleLogon;
    HandleLogonSettles(c, s, f);
    forall hi, lo ensures Settles(s, Verify(c, s, f, hi, lo).s) {
      VerifySettles(c, s, f, hi, lo);
    }
    forall hi, lo | Verify(c, s, f, hi, lo).flow.Continue?
      ensures Verify(c, s, f, hi, lo).s == Heard(s, f.msg)
    {
      VerifyContinues(c, s, f, hi, lo);
    }
  }

  /** Replay consumes the stash in ascending order, each message exactly when it is due, and
      stops only when nothing more is due (or the connection must go). */
  lemma {:induction false} DrainStep(c: Config, s: State)
    requires StashKeyed(s.rec.stash)
    ensures Step(c, s, Drain(c, s).s)
    ensures StashReady(s) ==> Drain(c, s).dropped || StashAbove(Drain(c, s).s)
    decreases s.rec.stash.Keys
  {
    hide Process, Sound, Evolves;
    var n: nat := s.i.nextTarget;
    if n in s.rec.stash {
      var f := s.rec.stash[n];
      var s1 := s.(rec := s.rec.(stash := s.rec.stash - {n}, lastWasQueued := true));
      UnstashStep(c, s, n);
      if SkippedWhenQueued(f.msg) || !f.msg.parses {
        IncrStep(c, s1);
        Chain(c, s, s1, IncrTarget(s1));
        DrainStep(c, IncrTarget(s1));
        Chain(c, s, IncrTarget(s1), Drain(c, IncrTarget(s1)).s);
      } else {
        InSequenceNeverStashes(c, s1, f);
        var h := Process(c, s1, f);
        ProcessStep(c, s1, f);
        ProcessSettles(c, s1, f);
        Chain(c, s, s1, h.s);
        if !h.dropped {
          DrainStep(c, h.s);
          Chain(c, s, h.s, Drain(c, h.s).s);
        }
      }
    } else {
      StayStep(c, s);
    }
  }

  /** Replay never resets the store and leaves the outstanding range alone. */
  lemma {:induction false} DrainKeepsCourse(c: Config, s: State)
    requires StashKeyed(s.rec.stash)
    ensures var r := Drain(c, s).s;
            r.clock == s.clock && r.rec.resendRange == s.rec.resendRange && r.rec.asked == s.rec.asked
    decreases s.rec.stash.Keys
  {
    hide Process;
    var n: nat := s.i.nextTarget;
    if n in s.rec.stash {
      var f := s.rec.stash[n];
      var s1 := s.(rec := s.rec.(stash := s.rec.stash - {n}, lastWasQueued := true));
      if SkippedWhenQueued(f.msg) || !f.msg.parses {
        DrainKeepsCourse(c, IncrTarget(s1));
      } else {
        InSequenceNeverStashes(c, s1, f);
        if !Process(c, s1, f).dropped {
          DrainKeepsCourse(c, Process(c, s1, f).s);
        }
      }
    }
  }

  lemma UnstashStep(c: Config, s: State, n: nat)
    ensures Step(c, s, s.(rec := s.rec.(stash := s.rec.stash - {n}, lastWasQueued := true)))
  {
    hide OutgoingOk, IncomingOk;
  }

  // ----- whole events -----

  /** Between events an outstanding range is not exhausted: its current piece is still being waited for. */
  ghost predicate Pending(s: State) {
    s.rec.resendRange.Some? ==> s.i.nextTarget <= s.rec.resendRange.value.chunkEnd
  }

  /** The invariant between events. */
  ghost predicate Inv(c: Config, s: State) { Sound(c, s) && StashAbove(s) && Pending(s) }

  lemma DisconnectKeeps(c: Config, s: State)
    requires Sound(c, s) && (s.link.connected || (StashAbove(s) && Pending(s)))
    ensures Inv(c, Disconnect(c, s)) && Evolves(s, Disconnect(c, s))
  {
    hide OutgoingOk, IncomingOk, ResetStore;
    if s.link.connected {
      var s1 := s.(link := Link(false, false, false, false, false, false, s.link.pendingLogon),
                   i := s.i.(testRequests := 0),
                   rec := s.rec.(resendRange := None, stash := map[]));
      assert IncomingOk(s1.i) by { IncomingIgnoresTimers(s.i, s.i.lastReceived, 0); }
      ResetStep(c, s1);
      assert ResetStore(s1).rec == s1.rec by { ResetFrame(s1); }
    }
  }

  lemma IncomingIgnoresTimers(i: Incoming, t: real, n: nat)
    requires IncomingOk(i)
    ensures IncomingOk(i.(lastReceived := t, testRequests := n))
  {
  }

  lemma ResetFrame(s: State)
    ensures ResetStore(s).rec == s.rec && ResetStore(s).link == s.link
  {
  }

  lemma {:induction false} SettleKeeps(c: Config, s: State)
    requires Sound(c, s) && StashReady(s) && s.link.connected
    ensures Inv(c, Settle(c, s)) && Evolves(s, Settle(c, s))
  {
    hide OutgoingOk, IncomingOk, Drain, Disconnect, SendResendRequest;
    var s1 := s.(rec := s.rec.(lastWasQueued := false));
    assert Step(c, s, s1);
    DrainStep(c, s1);
    var h := Drain(c, s1);
    Chain(c, s, s1, h.s);
    if h.dropped {
      DisconnectKeeps(c, h.s);
    } else {
      ChunkStep(c, h.s);
      ChunkFrame(c, h.s);
      ChunkPends(c, h.s);
    }
  }

  /** The check after each message asks for the next piece as soon as the current one is complete. */
  lemma ChunkPends(c: Config, s: State)
    requires RangeOk(s.rec)
    ensures Pending(CheckResendChunks(c, s))
  {
    hide Send;
  }

  lemma ChunkFrame(c: Config, s: State)
    ensures var r := CheckResendChunks(c, s); r.rec.stash == s.rec.stash && r.i == s.i && r.link == s.link && r.clock == s.clock
  {
    hide Send;
  }

  lemma {:induction false} InboundKeeps(c: Config, s: State, frame: Frame)
    requires Inv(c, s) && s.link.connected
    ensures Inv(c, OnInbound(c, s, frame)) && Evolves(s, OnInbound(c, s, frame))
  {
    hide Process, Settle, Disconnect, OutgoingOk, IncomingOk;
    match frame
    case Garbled(_) => DisconnectKeeps(c, s);
    case Parsed(f) =>
      var h := Process(c, s, f);
      ProcessStep(c, s, f);
      ProcessSettles(c, s, f);
      if h.dropped { DisconnectKeeps(c, h.s); } else { SettleKeeps(c, h.s); }
  }

  lemma SendLogonStep(c: Config, s: State)
    ensures Step(c, s, SendLogon(c, s)) && SendLogon(c, s).rec == s.rec && SendLogon(c, s).i == s.i
  {
    hide Send, Step;
    var link := s.link.(sentReset := s.link.sentReset || ResetsOnLogon(c, s), sentLogon := true);
    FlagStep(c, s, link, s.clock);
    SendStep(c, s.(link := link), LogonRequest(c, s), false);
    Chain(c, s, s.(link := link), SendLogon(c, s));
  }

  lemma AttachKeeps(c: Config, s: State)
    requires Inv(c, s)
    ensures Inv(c, OnAttach(c, s)) && Evolves(s, OnAttach(c, s))
  {
    hide SendLogon, IsInRange, OutgoingOk, IncomingOk;
    if !s.link.connected {
      var s1 := s.(link := s.link.(connected := true),
                   o := s.o.(lastSent := s.clock.now),
                   i := s.i.(lastReceived := s.clock.now, testRequests := 0));
      TransmitKeeps(c, s.o, [], s.clock.now);
      IncomingIgnoresTimers(s.i, s.clock.now, 0);
      assert Inv(c, s1) && Evolves(s, s1);
      ResetStep(c, s1);
      ResetFrame(s1);
      var s2 := if c.resetOnLogon then ResetStore(s1) else s1;
      SendLogonStep(c, s2);
    }
  }

  lemma LogOffKeeps(c: Config, s: State)
    requires Inv(c, s)
    ensures Inv(c, LogOff(c, s)) && Evolves(s, LogOff(c, s))
  {
    hide Send, Disconnect, OutgoingOk, IncomingOk;
    LogoutStep(c, s);
    if s.link.connected {
      DisconnectKeeps(c, s);
      DisconnectKeeps(c, InitiateLogout(c, s));
    }
  }

  lemma TickKeeps(c: Config, s: State)
    requires Inv(c, s)
    ensures Inv(c, OnScheduleTick(c, s)) && Evolves(s, OnScheduleTick(c, s))
  {
    hide LogOff, Send, SendLogon, ScheduledResetDue, IsInRange, OutgoingOk, IncomingOk;
    LogOffKeeps(c, s);
    ResetStep(c, LogOff(c, s));
    LogoutStep(c, s);
    var s1 := if s.link.connected && LoggedOn(s.link) && !s.link.sentLogout && !IsInRange(c.logonSchedule, s.clock.utc)
              then InitiateLogout(c, s) else s;
    var s2 := s1.(link := s1.link.(pendingLogon := false));
    SendLogonStep(c, s2);
  }

  lemma DeadlineKeeps(c: Config, s: State)
    requires Inv(c, s)
    ensures Inv(c, OnDeadline(c, s)) && Evolves(s, OnDeadline(c, s))
  {
    hide Send, Disconnect, OutgoingOk, IncomingOk;
    DisconnectKeeps(c, s);
    LogoutStep(c, s);
    var logout := InitiateLogout(c, s);
    DisconnectKeeps(c, logout);
    var s1 := s.(i := s.i.(testRequests := s.i.testRequests + 1));
    IncomingIgnoresTimers(s.i, s.i.lastReceived, s.i.testRequests + 1);
    assert Step(c, s, s1);
    SendStep(c, s1, Plain(TestRequest), false);
    SendStep(c, s, Plain(Heartbeat), false);
  }

  /** Every event except an operator's change of the counters keeps the invariant. */
  lemma {:induction false} EventKeeps(c: Config, s0: State, e: Timed)
    requires Inv(c, s0) && !e.event.ChangeSeqNums?
    ensures Inv(c, Apply(c, s0, e)) && Evolves(s0, Apply(c, s0, e))
  {
    hide Send, OnAttach, OnInbound, Disconnect, OnScheduleTick, OnDeadline, OutgoingOk, IncomingOk;
    var s := s0.(clock := s0.clock.(now := e.now, utc := e.utc));
    assert Inv(c, s) && Evolves(s0, s);
    match e.event
    case SendMessage(m, vetoed) => SendStep(c, s, m, vetoed);
    case Attach => AttachKeeps(c, s);
    case Logoff => LogoutStep(c, s);
    case Receive(frame) => if s.link.connected { InboundKeeps(c, s, frame); }
    case PeerClosed => DisconnectKeeps(c, s);
    case ScheduleTick => TickKeeps(c, s);
    case Deadline => DeadlineKeeps(c, s);
  }

  // ----- whole runs -----

  ghost predicate NoOperator(es: seq<Timed>) { forall j | 0 <= j < |es| :: !es[j].event.ChangeSeqNums? }

  lemma {:induction false} RunKeeps(c: Config, s: State, es: seq<Timed>)
    requires Inv(c, s) && NoOperator(es)
    ensures Inv(c, Run(c, s, es)) && Evolves(s, Run(c, s, es))
  {
    hide Apply, OutgoingOk, IncomingOk, RangeOk, StashAbove;
    if es != [] {
      var last := |es| - 1;
      RunKeeps(c, s, es[..last]);
      EventKeeps(c, Run(c, s, es[..last]), es[last]);
      assert Evolves(Run(c, s, es[..last]), Run(c, s, es));
    }
  }

  /** Any two moments of a run are related, not just its ends. */
  lemma {:induction false} RunEvolvesThroughout(c: Config, s: State, es: seq<Timed>, a: nat)
    requires Inv(c, s) && NoOperator(es) && a <= |es|
    ensures Evolves(Run(c, s, es[..a]), Run(c, s, es))
  {
    hide Apply, OutgoingOk, IncomingOk, RangeOk, StashAbove;
    if a == |es| {
      assert es[..a] == es;
    } else {
      var last := |es| - 1;
      assert es[..last][..a] == es[..a];
      RunEvolvesThroughout(c, s, es[..last], a);
      RunKeeps(c, s, es[..last]);
      EventKeeps(c, Run(c, s, es[..last]), es[last]);
    }
  }

  // ----- the main results -----

  /** In-order, at-most-once delivery. Over any interleaving of messages, replays, rejects, timers,
      ticks and reconnects within an epoch, the target number never decreases, and what the
      application newly sees has strictly ascending numbers, each the one expected when it was
      delivered, none below the target at the start and none at or above the target at the end. */
  lemma {:induction false} InOrderDelivery(c: Config, s: State, es: seq<Timed>)
    requires Inv(c, s) && NoOperator(es) && Run(c, s, es).clock.epoch == s.clock.epoch
    ensures var r := Run(c, s, es);
            && s.i.nextTarget <= r.i.nextTarget
            && s.i.delivered <= r.i.delivered
            && (forall j | |s.i.delivered| <= j < |r.i.delivered| ::
                  && r.i.delivered[j].msg.seqNum == Some(r.i.delivered[j].expected)
                  && s.i.nextTarget <= r.i.delivered[j].expected < r.i.nextTarget)
            && (forall j, k | 0 <= j < k < |r.i.delivered| :: r.i.delivered[j].expected < r.i.delivered[k].expected)
  {
    hide Run, OutgoingOk;
    RunKeeps(c, s, es);
  }

  /** Whatever numbers its store has reached, a spawned session starts in the invariant. */
  lemma SpawnedIsSound(c: Config, sender: SeqNum, target: SeqNum, saved: map<nat, Msg>, created: int, interval: real, now: real, utc: int)
    requires forall k | k in saved :: saved[k].seqNum == Some(k) && 1 <= k < sender
    ensures Inv(c, Spawned(sender, target, saved, created, interval, now, utc))
  {
  }

  /** A session whose store has just been reset. */
  ghost predicate FreshStore(s: State) {
    && s.o.nextSender == 1 && s.o.saved == map[] && s.o.base == 1 && s.o.numbered == [] && s.o.mark == |s.o.wire|
    && s.i.nextTarget == 1 && s.i.delivered == []
    && s.rec.stash == map[] && s.rec.resendRange.None?
  }

  lemma FreshStoreIsSound(c: Config, s: State)
    requires FreshStore(s)
    ensures Inv(c, s)
  {
  }

  /** Sender numbering. After a store reset the messages sent are numbered 1, 2, 3, ... without gap or
      repeat, connected or not, across any later resets. When messages are persisted the store holds
      exactly the numbers used so far, each with the message that took it. Of what the present epoch put
      on the wire, everything but possible duplicates (resends and GapFills) is such a message, each
      at most once and in order; so nothing else takes a number. */
  lemma {:induction false} SenderNumbering(c: Config, s: State, es: seq<Timed>)
    requires FreshStore(s) && NoOperator(es)
    ensures StashKeyed(s.rec.stash)
    ensures var o := Run(c, s, es).o;
            && |o.numbered| == o.nextSender - 1
            && (forall j | 0 <= j < |o.numbered| :: o.numbered[j].seqNum == Some(j + 1) && !o.numbered[j].possDup)
            && (c.persist ==>
                  && (forall k: nat :: k in o.saved <==> 1 <= k < o.nextSender)
                  && (forall k: nat | 1 <= k < o.nextSender :: o.saved[k] == o.numbered[k - 1]))
            && o.mark <= |o.wire|
            && (forall j | o.mark <= j < |o.wire| && !o.wire[j].possDup :: o.wire[j] in o.numbered)
            && (forall j, k | o.mark <= j < k < |o.wire| && !o.wire[j].possDup && !o.wire[k].possDup ::
                  && o.wire[j].seqNum.Some? && o.wire[k].seqNum.Some? && o.wire[j].seqNum.value < o.wire[k].seqNum.value)
  {
    hide Run, IncomingOk;
    FreshStoreIsSound(c, s);
    RunKeeps(c, s, es);
    var o := Run(c, s, es).o;
    assert forall j | o.mark <= j < |o.wire| && !o.wire[j].possDup :: Recorded(o.wire[j], o.numbered, o.base);
  }

  /** An epoch's mark on the wire is where the wire stood when the epoch began. */
  lemma {:induction false} MarkStays(c: Config, s: State, es: seq<Timed>)
    requires Inv(c, s) && NoOperator(es) && Run(c, s, es).clock.epoch == s.clock.epoch
    ensures Run(c, s, es).o.mark == s.o.mark
  {
    hide Run, OutgoingOk, IncomingOk;
    RunKeeps(c, s, es);
  }
}

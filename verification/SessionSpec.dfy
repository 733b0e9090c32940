/**
 The session layer (src/session.rs) as functions over its state: one function per handler,
 with the same branches in the same order. SessionMachine implements these step by step.

 Everything the session cannot know by itself is an oracle. The verdicts on an inbound message
 (time, CompID and dictionary checks, application callbacks) travel with it, once for its
 arrival and once for a possible replay from the stash.
 */
module SessionSpec {
  import opened Messages
  import opened Schedules

  // ----- configuration and environment -----

  datatype TimeCheck = Missing | Stale | Fresh
  datatype OrigCheck = NoOrigTime | AfterSendingTime | Plausible
  datatype Callback = Accept | RejectLogon | RejectMessage | Unsupported

  datatype Checks = Checks(
    beginStringOk: bool,
    dictionaryOk: bool,
    sendingTime: TimeCheck,
    compIdsOk: bool,
    origTime: OrigCheck,
    callback: Callback,      // from_admin / from_app
    replyVetoed: bool,       // to_app refuses a BusinessMessageReject
    resendVetoes: set<nat>)  // numbers for which to_app refuses the resend

  /** A message as it arrives, with the verdicts on arrival and on a later replay. */
  datatype Inbound = Inbound(msg: Msg, checks: Checks, later: Checks)

  /** What the framer hands over: bytes that do not parse, or a message. */
  datatype Frame = Garbled(looksLikeLogon: bool) | Parsed(inbound: Inbound)

  datatype Config = Config(
    initiator: bool,
    persist: bool,                // PersistMessages
    maxResend: nat,               // MaxMessagesInResendRequest, 0 = unlimited
    redundantRequests: bool,      // SendRedundantResendRequests
    nextExpected: bool,           // SendNextExpectedMsgSeqNum
    fix41Plus: bool,
    fix42Plus: bool,
    sendResetFlag: bool,
    resetOnLogon: bool,
    resetOnLogout: bool,
    resetOnDisconnect: bool,
    requiresOrigTime: bool,
    checkLatency: bool,
    checkCompIds: bool,
    logoutBeforeTimeout: bool,
    logonTimeout: real,
    logoutTimeout: real,
    heartBtOverride: Option<nat>,
    schedule: Schedule,
    logonSchedule: Schedule)

  // ----- state -----

  datatype Link = Link(
    connected: bool,
    receivedLogon: bool,
    sentLogon: bool,
    sentLogout: bool,
    sentReset: bool,
    receivedReset: bool,
    pendingLogon: bool)

  /** The outgoing side: the sender half of the store, the wire, and the messages numbered since
      the epoch began at `base`, when `mark` messages had been put on the wire. */
  datatype Outgoing = Outgoing(
    nextSender: SeqNum,
    saved: map<nat, Msg>,
    lastSent: real,
    wire: seq<Msg>,
    base: SeqNum,
    numbered: seq<Msg>,
    mark: nat)

  /** A message handed to from_app, with the sequence number expected at that moment. */
  datatype Delivery = Delivery(msg: Msg, expected: nat)

  /** The incoming side: the target half of the store and the deliveries of this epoch. */
  datatype Incoming = Incoming(
    nextTarget: SeqNum,
    lastReceived: real,
    testRequests: nat,
    delivered: seq<Delivery>)

  /** An outstanding resend range: the chunk asked for last and the end of the whole gap. */
  datatype Range = Range(begin: nat, fullEnd: nat, chunkEnd: nat)

  datatype Recovery = Recovery(
    resendRange: Option<Range>,
    stash: map<nat, Inbound>,
    lastWasQueued: bool,
    asked: seq<Range>)   // log of the ranges requested

  /** An epoch lasts from one store reset, or operator change of the counters, to the next. */
  datatype Clock = Clock(now: real, utc: int, heartBtInt: real, created: int, epoch: nat, scheduledResets: seq<int>)

  datatype State = State(link: Link, o: Outgoing, i: Incoming, rec: Recovery, clock: Clock)

  /** A session as it is spawned over a store: unconnected, with nothing stashed or requested. */
  function Spawned(sender: SeqNum, target: SeqNum, saved: map<nat, Msg>, created: int, interval: real, now: real, utc: int): State {
    State(Link(false, false, false, false, false, false, false),
          Outgoing(sender, saved, now, [], sender, [], 0),
          Incoming(target, now, 0, []),
          Recovery(None, map[], false, []),
          Clock(now, utc, interval, created, 0, []))
  }

  predicate LoggedOn(l: Link) { l.receivedLogon && l.sentLogon }

  datatype Flow = Continue | Stop | Drop

  /** Outcome of verification: what the calling handler must do next. */
  datatype Verdict = Verdict(s: State, flow: Flow)

  /** Outcome of a handler: whether the connection must be dropped. */
  datatype Handled = Handled(s: State, dropped: bool)

  // ----- the store -----

  function IncrTarget(s: State): State { s.(i := s.i.(nextTarget := s.i.nextTarget + 1)) }

  /** Both counters restart at 1, nothing is saved and a new epoch begins. */
  function ResetStore(s: State): State {
    s.(o := s.o.(nextSender := 1, saved := map[], base := 1, numbered := [], mark := |s.o.wire|),
       i := s.i.(nextTarget := 1, delivered := []),
       clock := s.clock.(created := s.clock.utc, epoch := s.clock.epoch + 1))
  }

  // ----- outbound -----

  function TransmitAll(s: State, ms: seq<Msg>): (r: State)
    ensures r == s.(o := r.o)
  {
    if s.link.connected && ms != [] then
      s.(o := s.o.(wire := s.o.wire + ms, lastSent := s.clock.now))
    else s
  }

  predicate AlwaysTransmitted(k: Kind) {
    k.Logon? || k.Logout? || k.ResendRequest? || k.SequenceReset?
  }

  /** A fresh send takes the next number and is never a possible duplicate. */
  function WithNextNumber(o: Outgoing, m: Msg): Msg { m.(seqNum := Some(o.nextSender), possDup := false) }

  /** Number and persist a message. */
  function Enroll(c: Config, o: Outgoing, m: Msg): Outgoing {
    var m1 := WithNextNumber(o, m);
    o.(nextSender := o.nextSender + 1,
       saved := if c.persist then o.saved[o.nextSender as nat := m1] else o.saved,
       numbered := o.numbered + [m1])
  }

  /** Only application messages can be vetoed; only session control goes out before logon. */
  function Send(c: Config, s: State, m: Msg, vetoed: bool): (r: State)
    ensures r == s.(o := r.o)
  {
    if !IsAdmin(m.kind) && vetoed then s
    else
      var s1 := s.(o := Enroll(c, s.o, m));
      if LoggedOn(s.link) || AlwaysTransmitted(m.kind) || s.link.sentLogon
      then TransmitAll(s1, [WithNextNumber(s.o, m)]) else s1
  }

  function InitiateLogout(c: Config, s: State): State {
    Send(c, s.(link := s.link.(sentLogout := true)), Plain(Logout), false)
  }

  predicate ResetsOnLogon(c: Config, s: State) {
    c.sendResetFlag || (c.fix41Plus && c.resetOnLogon && s.o.nextSender == 1 && s.i.nextTarget == 1)
  }

  /** HeartBtInt(108) is announced in whole seconds. */
  function WholeSeconds(interval: real): nat { if interval < 0.0 then 0 else interval.Floor }

  function LogonRequest(c: Config, s: State): Msg {
    Plain(Logon).(
    heartBtInt := Some(WholeSeconds(s.clock.heartBtInt)),
    resetFlag := ResetsOnLogon(c, s),
    nextExpected := if c.nextExpected then Some(s.i.nextTarget) else None)
  }

  function SendLogon(c: Config, s: State): State {
    Send(c, s.(link := s.link.(sentReset := s.link.sentReset || ResetsOnLogon(c, s), sentLogon := true)),
         LogonRequest(c, s), false)
  }

  function NegotiatedInterval(c: Config, current: real, peer: Option<nat>): real {
    if peer.None? then current
    else if c.heartBtOverride.Some? then c.heartBtOverride.value as real
    else peer.value as real
  }

  /** The reply announces next-target + 1: the Logon it answers is not counted yet. */
  function LogonReply(c: Config, s: State, peerInterval: Option<nat>): Msg {
    Plain(Logon).(
    heartBtInt := Some(WholeSeconds(NegotiatedInterval(c, s.clock.heartBtInt, peerInterval))),
    resetFlag := s.link.receivedReset && c.nextExpected,
    nextExpected := if c.nextExpected then Some(s.i.nextTarget + 1) else None)
  }

  function SendLogonReply(c: Config, s: State, peerInterval: Option<nat>): State {
    Send(c,
         s.(link := s.link.(sentReset := s.link.sentReset || s.link.receivedReset, sentLogon := true),
            clock := s.clock.(heartBtInt := NegotiatedInterval(c, s.clock.heartBtInt, peerInterval))),
         LogonReply(c, s, peerInterval), false)
  }

  /** A session-level Reject consumes the number of an offender that was in sequence. */
  function SendReject(c: Config, s: State, offender: Msg): State {
    var consumes := !offender.kind.Logon? && !offender.kind.SequenceReset?
                    && offender.seqNum == Some(s.i.nextTarget as nat);
    Send(c, if consumes then IncrTarget(s) else s, Plain(Reject), false)
  }

  function SendBusinessReject(c: Config, s: State, vetoed: bool): State {
    Send(c, IncrTarget(s), Plain(if c.fix42Plus then App("j") else Reject), vetoed)
  }

  // ----- resend requests -----

  function Chunk(c: Config, begin: nat, fullEnd: nat): Range {
    if c.maxResend == 0 || fullEnd < begin + c.maxResend - 1 then Range(begin, fullEnd, fullEnd)
    else Range(begin, fullEnd, begin + c.maxResend - 1)
  }

  function SendResendRequest(c: Config, s: State, begin: nat, received: nat): State
    requires received >= 1
  {
    var range := Chunk(c, begin, received - 1);
    var end := if c.maxResend > 0 then range.chunkEnd else if c.fix42Plus then 0 else 999999;
    Send(c, s.(rec := s.rec.(resendRange := Some(range), asked := s.rec.asked + [range])),
         Plain(ResendRequest).(beginSeqNo := Some(begin), endSeqNo := Some(end)), false)
  }

  function CheckResendChunks(c: Config, s: State): State {
    if s.rec.resendRange.None? || s.i.nextTarget <= s.rec.resendRange.value.chunkEnd then s
    else if s.i.nextTarget <= s.rec.resendRange.value.fullEnd then
      SendResendRequest(c, s, s.i.nextTarget, s.rec.resendRange.value.fullEnd + 1)
    else s.(rec := s.rec.(resendRange := None))
  }

  // ----- answering a resend request -----

  function GapFillFor(begin: nat, newSeq: nat): Msg {
    Plain(SequenceReset).(seqNum := Some(begin), possDup := true, gapFill := true, newSeqNo := Some(newSeq))
  }

  function ResendOf(m: Msg): Msg { m.(possDup := true) }

  /** Whether number `n` is sent again as itself rather than covered by a GapFill. */
  predicate Resends(saved: map<nat, Msg>, vetoes: set<nat>, n: nat) {
    n in saved && saved[n].parses && !IsAdmin(saved[n].kind) && n !in vetoes
  }

  /** What answers a request for [next, end] when the numbers from `gap` on are still uncovered. */
  function Replay(saved: map<nat, Msg>, vetoes: set<nat>, next: nat, end: nat, gap: Option<nat>): seq<Msg>
    requires next <= end + 1
    decreases end + 1 - next
  {
    if next > end then
      if gap.Some? then [GapFillFor(gap.value, end + 1)] else []
    else if Resends(saved, vetoes, next) then
      (if gap.Some? then [GapFillFor(gap.value, next)] else [])
      + [ResendOf(saved[next])]
      + Replay(saved, vetoes, next + 1, end, None)
    else
      Replay(saved, vetoes, next + 1, end, if gap.Some? then gap else Some(next))
  }

  function ResendAnswer(c: Config, saved: map<nat, Msg>, vetoes: set<nat>, begin: nat, end: nat): seq<Msg> {
    if begin > end then []
    else if c.persist then Replay(saved, vetoes, begin, end, None)
    else [GapFillFor(begin, end + 1)]
  }

  // ----- verification -----

  predicate ValidLogonState(l: Link, k: Kind) {
    || (k.Logon? && (l.sentReset || l.receivedReset))
    || (k.Logon? && !l.receivedLogon)
    || (!k.Logon? && l.receivedLogon)
    || (k.Logout? && l.sentLogon)
    || (!k.Logout? && l.sentLogout)
    || k.SequenceReset?
    || k.Reject?
  }

  /** A stashed message will be judged by its later verdicts. */
  function Stashed(s: State, f: Inbound, n: nat): State {
    s.(rec := s.rec.(stash := s.rec.stash[n := f.(checks := f.later)]))
  }

  function OnTargetTooHigh(c: Config, s: State, f: Inbound, received: nat): State
    requires received >= 1
  {
    if s.rec.resendRange.Some? && !c.redundantRequests then Stashed(s, f, received)
    else SendResendRequest(c, Stashed(s, f, received), s.i.nextTarget, received)
  }

  function OnTargetTooLow(c: Config, s: State, f: Inbound): Verdict {
    if !f.msg.possDup then
      Verdict(InitiateLogout(c, s), Drop)
    else if f.msg.kind.SequenceReset? || !c.requiresOrigTime || f.checks.origTime.Plausible? then
      Verdict(s, Stop)
    else if f.checks.origTime.AfterSendingTime? then
      Verdict(InitiateLogout(c, SendReject(c, s, f.msg)), Stop)
    else
      Verdict(SendReject(c, s, f.msg), Stop)
  }

  /** A verified message: the peer is alive, and the application sees the message. */
  function Heard(s: State, m: Msg): State {
    s.(i := s.i.(lastReceived := s.clock.now, testRequests := 0,
                 delivered := if IsAdmin(m.kind) then s.i.delivered
                              else s.i.delivered + [Delivery(m, s.i.nextTarget)]))
  }

  function Consult(c: Config, s: State, f: Inbound): Verdict {
    match f.checks.callback
    case Accept => Verdict(Heard(s, f.msg), Continue)
    case RejectLogon => Verdict(InitiateLogout(c, IncrTarget(Heard(s, f.msg))), Drop)
    case RejectMessage => Verdict(SendReject(c, Heard(s, f.msg), f.msg), Stop)
    case Unsupported => Verdict(SendBusinessReject(c, Heard(s, f.msg), f.checks.replyVetoed), Stop)
  }

  predicate TooHigh(s: State, m: Msg) { m.seqNum.Some? && m.seqNum.value > s.i.nextTarget }

  /** Right behind a replay from the stash, a GapFill may be late: it does not count as too low then. */
  predicate TooLow(s: State, m: Msg) {
    && m.seqNum.Some? && m.seqNum.value < s.i.nextTarget
    && !(s.rec.lastWasQueued && m.kind.SequenceReset? && m.gapFill)
  }

  function CheckSequence(c: Config, s: State, f: Inbound, checkHigh: bool, checkLow: bool): Verdict {
    if (checkHigh || checkLow) && f.msg.seqNum.None? then Verdict(SendReject(c, s, f.msg), Stop)
    else if checkHigh && TooHigh(s, f.msg) then Verdict(OnTargetTooHigh(c, s, f, f.msg.seqNum.value), Stop)
    else if checkLow && TooLow(s, f.msg) then OnTargetTooLow(c, s, f)
    else Consult(c, s, f)
  }

  function Verify(c: Config, s: State, f: Inbound, checkHigh: bool, checkLow: bool): Verdict {
    if !ValidLogonState(s.link, f.msg.kind) then Verdict(s, Drop)
    else if f.checks.sendingTime.Missing? then Verdict(SendReject(c, s, f.msg), Stop)
    else if (f.checks.sendingTime.Stale? && c.checkLatency) || (c.checkCompIds && !f.checks.compIdsOk) then
      Verdict(InitiateLogout(c, SendReject(c, s, f.msg)), Stop)
    else CheckSequence(c, s, f, checkHigh, checkLow)
  }

  // ----- handlers -----

  /** Store resets a Logon causes before it is verified. */
  function LogonResets(c: Config, s: State, m: Msg): Handled {
    var s1 := if m.resetFlag then s.(link := s.link.(receivedReset := true)) else s;
    var s2 := if m.resetFlag && !s.link.sentReset then ResetStore(s1) else s1;
    if c.initiator && !s2.link.sentLogon then Handled(s2, true)
    else if !c.initiator && c.resetOnLogon && !s2.link.receivedReset then Handled(ResetStore(s2), false)
    else Handled(s2, false)
  }

  /** Count the Logon, or stash it and arrange for the missing messages. */
  function SequenceLogon(c: Config, s: State, f: Inbound): Handled {
    if f.msg.seqNum.None? then Handled(s, true)
    else if !TooHigh(s, f.msg) then Handled(IncrTarget(s), false)
    else
      var n := f.msg.seqNum.value;
      if c.nextExpected && !f.msg.resetFlag then
        var s1 := Stashed(s, f, n);
        Handled(s1.(rec := s1.rec.(resendRange := Some(Range(s.i.nextTarget, n - 1, n - 1)))), false)
      else Handled(OnTargetTooHigh(c, s, f, n), false)
  }

  /** The peer's 789, when it matters. */
  function PeerExpects(c: Config, m: Msg): Option<nat> {
    if c.nextExpected then m.nextExpected else None
  }

  /** An acceptor replies; either way the reset negotiation is over. */
  function AnswerLogon(c: Config, s: State, m: Msg): State {
    var s1 := if c.initiator then s else SendLogonReply(c, s, m.heartBtInt);
    s1.(link := s1.link.(sentReset := false, receivedReset := false))
  }

  function AcceptLogon(c: Config, s: State, f: Inbound): Handled {
    var s1 := s.(link := s.link.(receivedLogon := true));
    var peer := PeerExpects(c, f.msg);
    if peer.Some? && peer.value > s1.o.nextSender then
      Handled(InitiateLogout(c, s1), true)
    else
      var h := SequenceLogon(c, AnswerLogon(c, s1, f.msg), f);
      if h.dropped || peer.None? || peer.value == s1.o.nextSender then h
      else
        Handled(TransmitAll(h.s, ResendAnswer(c, h.s.o.saved, f.checks.resendVetoes, peer.value, h.s.o.nextSender - 1)),
                false)
  }

  function HandleLogon(c: Config, s: State, f: Inbound): Handled {
    if c.checkLatency && !f.checks.sendingTime.Fresh? then Handled(s, true)
    else
      var r := LogonResets(c, s, f.msg);
      if r.dropped then r
      else
        var v := Verify(c, r.s, f, false, true);
        if v.flow.Continue? then AcceptLogon(c, v.s, f) else Handled(v.s, v.flow.Drop?)
  }

  /** Heartbeats, Rejects and application messages: verify, then count. */
  function HandleCounted(c: Config, s: State, f: Inbound): Handled {
    var v := Verify(c, s, f, true, true);
    if v.flow.Continue? then Handled(IncrTarget(v.s), false) else Handled(v.s, v.flow.Drop?)
  }

  function HandleTestRequest(c: Config, s: State, f: Inbound): Handled {
    var v := Verify(c, s, f, true, true);
    if v.flow.Continue? then Handled(IncrTarget(Send(c, v.s, Plain(Heartbeat), false)), false)
    else Handled(v.s, v.flow.Drop?)
  }

  /** The last number a ResendRequest covers; open-ended requests stop at the last one sent. */
  function RequestedEnd(o: Outgoing, m: Msg): nat {
    var end := if m.endSeqNo.Some? then m.endSeqNo.value else 0;
    if end == 0 || end == 999999 || end >= o.nextSender then o.nextSender - 1 else end
  }

  function HandleResendRequest(c: Config, s: State, f: Inbound): Handled {
    var v := Verify(c, s, f, false, false);
    if !v.flow.Continue? then Handled(v.s, v.flow.Drop?)
    else
      var begin := if f.msg.beginSeqNo.Some? then f.msg.beginSeqNo.value else 1;
      var s1 := TransmitAll(v.s, ResendAnswer(c, v.s.o.saved, f.checks.resendVetoes, begin, RequestedEnd(v.s.o, f.msg)));
      Handled(if f.msg.seqNum == Some(s1.i.nextTarget as nat) then IncrTarget(s1) else s1, false)
  }

  /** Expect `n` next; anything stashed below it is superseded. */
  function AdvanceTo(s: State, n: SeqNum): State {
    s.(i := s.i.(nextTarget := n),
       rec := s.rec.(stash := map k | k in s.rec.stash && k >= n :: s.rec.stash[k]))
  }

  function HandleSequenceReset(c: Config, s: State, f: Inbound): Handled {
    var v := Verify(c, s, f, f.msg.gapFill, f.msg.gapFill);
    if !v.flow.Continue? then Handled(v.s, v.flow.Drop?)
    else if f.msg.newSeqNo.None? || f.msg.newSeqNo.value == v.s.i.nextTarget then Handled(v.s, false)
    else if f.msg.newSeqNo.value > v.s.i.nextTarget then
      Handled(AdvanceTo(v.s, f.msg.newSeqNo.value), false)
    else Handled(SendReject(c, v.s, f.msg), false)
  }

  function HandleLogout(c: Config, s: State, f: Inbound): Handled {
    var v := Verify(c, s, f, false, false);
    if !v.flow.Continue? then Handled(v.s, v.flow.Drop?)
    else
      var s1 := IncrTarget(if v.s.link.sentLogout then v.s else InitiateLogout(c, v.s));
      Handled(if c.resetOnLogout then ResetStore(s1) else s1, true)
  }

  function Dispatch(c: Config, s: State, f: Inbound): Handled {
    match f.msg.kind
    case Logon => HandleLogon(c, s, f)
    case TestRequest => HandleTestRequest(c, s, f)
    case ResendRequest => HandleResendRequest(c, s, f)
    case SequenceReset => HandleSequenceReset(c, s, f)
    case Logout => HandleLogout(c, s, f)
    case _ => HandleCounted(c, s, f)
  }

  /** One parsed message, without looking at the stash. */
  function Process(c: Config, s: State, f: Inbound): Handled {
    if f.msg.kind.Untyped? then Handled(s, false)
    else if !f.checks.beginStringOk then Handled(InitiateLogout(c, IncrTarget(s)), true)
    else if !f.checks.dictionaryOk then Handled(SendReject(c, s, f.msg), false)
    else Dispatch(c, s, f)
  }

  function Disconnect(c: Config, s: State): State {
    if !s.link.connected then s
    else
      var s1 := s.(link := Link(false, false, false, false, false, false, s.link.pendingLogon),
                   i := s.i.(testRequests := 0),
                   rec := s.rec.(resendRange := None, stash := map[]));
      if c.resetOnDisconnect then ResetStore(s1) else s1
  }

  // ----- the stash -----

  /** Every stashed message sits under its own sequence number. A Logout is never stashed: it is
      handled whatever its number. */
  ghost predicate StashKeyed(stash: map<nat, Inbound>) {
    forall k | k in stash :: stash[k].msg.seqNum == Some(k) && !stash[k].msg.kind.Logout?
  }

  lemma ConsultKeepsCourse(c: Config, s: State, f: Inbound)
    ensures Consult(c, s, f).s.rec == s.rec && Consult(c, s, f).s.clock == s.clock
  {
    hide Send;
  }

  lemma TooLowKeepsCourse(c: Config, s: State, f: Inbound)
    ensures OnTargetTooLow(c, s, f).s.rec == s.rec && OnTargetTooLow(c, s, f).s.clock == s.clock
  {
    hide Send;
  }

  lemma VerifyKeepsStash(c: Config, s: State, f: Inbound, checkHigh: bool, checkLow: bool)
    requires !TooHigh(s, f.msg) || !checkHigh
    ensures Verify(c, s, f, checkHigh, checkLow).s.rec == s.rec
    ensures Verify(c, s, f, checkHigh, checkLow).s.clock == s.clock
  {
    hide Send, Consult, OnTargetTooLow;
    ConsultKeepsCourse(c, s, f);
    TooLowKeepsCourse(c, s, f);
  }

  /** Nothing new is stashed or asked for, and what is stashed keeps its place. */
  ghost predicate KeepsCourse(s: State, r: State) {
    && r.rec.stash.Keys <= s.rec.stash.Keys && (StashKeyed(s.rec.stash) ==> StashKeyed(r.rec.stash))
    && r.rec.resendRange == s.rec.resendRange && r.rec.asked == s.rec.asked
  }

  lemma CountedKeepsCourse(c: Config, s: State, f: Inbound)
    requires !TooHigh(s, f.msg)
    ensures KeepsCourse(s, HandleCounted(c, s, f).s) && HandleCounted(c, s, f).s.clock == s.clock
    ensures KeepsCourse(s, HandleTestRequest(c, s, f).s) && HandleTestRequest(c, s, f).s.clock == s.clock
  {
    hide Send, Verify;
    VerifyKeepsStash(c, s, f, true, true);
  }

  lemma {:induction false} ResendRequestKeepsCourse(c: Config, s: State, f: Inbound)
    ensures KeepsCourse(s, HandleResendRequest(c, s, f).s) && HandleResendRequest(c, s, f).s.clock == s.clock
  {
    hide Verify, ResendAnswer, RequestedEnd;
    VerifyKeepsStash(c, s, f, false, false);
  }

  lemma SequenceResetKeepsCourse(c: Config, s: State, f: Inbound)
    requires !TooHigh(s, f.msg)
    ensures KeepsCourse(s, HandleSequenceReset(c, s, f).s) && HandleSequenceReset(c, s, f).s.clock == s.clock
  {
    hide Send, Verify;
    VerifyKeepsStash(c, s, f, f.msg.gapFill, f.msg.gapFill);
  }

  lemma LogoutKeepsCourse(c: Config, s: State, f: Inbound)
    ensures KeepsCourse(s, HandleLogout(c, s, f).s)
  {
    hide Send, Verify;
    VerifyKeepsStash(c, s, f, false, false);
  }

  /** Processing a message that is not too high never adds to the stash, asks for nothing, and leaves the
      outstanding range alone; only a Logout may touch the store's age. */
  lemma {:induction false} InSequenceNeverStashes(c: Config, s: State, f: Inbound)
    requires !TooHigh(s, f.msg) && !f.msg.kind.Logon?
    ensures KeepsCourse(s, Process(c, s, f).s)
    ensures !f.msg.kind.Logout? ==> Process(c, s, f).s.clock == s.clock
  {
    hide Send, HandleLogon, HandleCounted, HandleTestRequest, HandleResendRequest, HandleSequenceReset, HandleLogout;
    CountedKeepsCourse(c, s, f);
    ResendRequestKeepsCourse(c, s, f);
    SequenceResetKeepsCourse(c, s, f);
    LogoutKeepsCourse(c, s, f);
  }

  /** Replay stashed messages that have become next in sequence. */
  function Drain(c: Config, s: State): Handled
    requires StashKeyed(s.rec.stash)
    decreases s.rec.stash.Keys
  {
    var n: nat := s.i.nextTarget;
    if n !in s.rec.stash then Handled(s, false)
    else
      var f := s.rec.stash[n];
      var s1 := s.(rec := s.rec.(stash := s.rec.stash - {n}, lastWasQueued := true));
      if SkippedWhenQueued(f.msg) || !f.msg.parses then Drain(c, IncrTarget(s1))
      else
        InSequenceNeverStashes(c, s1, f);
        var h := Process(c, s1, f);
        if h.dropped then h else Drain(c, h.s)
  }

  lemma SequenceLogonKeepsKeys(c: Config, s: State, f: Inbound)
    requires StashKeyed(s.rec.stash) && !f.msg.kind.Logout?
    ensures StashKeyed(SequenceLogon(c, s, f).s.rec.stash)
  {
    hide Send;
  }

  lemma {:induction false} AcceptLogonKeepsKeys(c: Config, s: State, f: Inbound)
    requires StashKeyed(s.rec.stash) && !f.msg.kind.Logout?
    ensures StashKeyed(AcceptLogon(c, s, f).s.rec.stash)
  {
    hide Send, ResendAnswer, SequenceLogon;
    SequenceLogonKeepsKeys(c, AnswerLogon(c, s.(link := s.link.(receivedLogon := true)), f.msg), f);
  }

  lemma {:induction false} LogonKeepsKeys(c: Config, s: State, f: Inbound)
    requires StashKeyed(s.rec.stash) && !f.msg.kind.Logout?
    ensures StashKeyed(HandleLogon(c, s, f).s.rec.stash)
  {
    hide Verify, AcceptLogon;
    var r := LogonResets(c, s, f.msg).s;
    VerifyKeepsKeys(c, r, f, false, true);
    AcceptLogonKeepsKeys(c, Verify(c, r, f, false, true).s, f);
  }

  lemma {:induction false} ProcessKeepsKeys(c: Config, s: State, f: Inbound)
    requires StashKeyed(s.rec.stash)
    ensures StashKeyed(Process(c, s, f).s.rec.stash)
  {
    hide Send, ResendAnswer, Verify, HandleLogon;
    if !f.msg.kind.Logout? {
      LogonKeepsKeys(c, s, f);
    }
    forall hi, lo | hi ==> !f.msg.kind.Logout? {
      VerifyKeepsKeys(c, s, f, hi, lo);
    }
  }

  lemma VerifyKeepsKeys(c: Config, s: State, f: Inbound, checkHigh: bool, checkLow: bool)
    requires StashKeyed(s.rec.stash) && (checkHigh ==> !f.msg.kind.Logout?)
    ensures StashKeyed(Verify(c, s, f, checkHigh, checkLow).s.rec.stash)
  {
    hide Send;
    if !checkHigh || !TooHigh(s, f.msg) {
      VerifyKeepsStash(c, s, f, checkHigh, checkLow);
    }
  }

  lemma {:induction false} DrainKeepsKeys(c: Config, s: State)
    requires StashKeyed(s.rec.stash)
    ensures StashKeyed(Drain(c, s).s.rec.stash)
    decreases s.rec.stash.Keys
  {
    hide Process;
    var n: nat := s.i.nextTarget;
    if n in s.rec.stash {
      var f := s.rec.stash[n];
      var s1 := s.(rec := s.rec.(stash := s.rec.stash - {n}, lastWasQueued := true));
      if SkippedWhenQueued(f.msg) || !f.msg.parses {
        DrainKeepsKeys(c, IncrTarget(s1));
      } else {
        InSequenceNeverStashes(c, s1, f);
        if !Process(c, s1, f).dropped {
          DrainKeepsKeys(c, Process(c, s1, f).s);
        }
      }
    }
  }

  /** What follows a message that was handled without dropping the connection. */
  function Settle(c: Config, s: State): State
    requires StashKeyed(s.rec.stash)
  {
    var h := Drain(c, s.(rec := s.rec.(lastWasQueued := false)));
    if h.dropped then Disconnect(c, h.s) else CheckResendChunks(c, h.s)
  }

  function OnInbound(c: Config, s: State, frame: Frame): State
    requires StashKeyed(s.rec.stash)
  {
    match frame
    case Garbled(looksLikeLogon) =>
      if !s.link.receivedLogon && looksLikeLogon then Disconnect(c, s) else s
    case Parsed(f) =>
      ProcessKeepsKeys(c, s, f);
      var h := Process(c, s, f);
      if h.dropped then Disconnect(c, h.s) else Settle(c, h.s)
  }

  // ----- timers -----

  function Earlier(a: real, b: real): real { if b < a then b else a }

  /** When the test request that is due next is due. */
  function TestDue(s: State): real {
    s.i.lastReceived + 1.2 * (s.i.testRequests + 1) as real * s.clock.heartBtInt
  }

  function NextDeadline(c: Config, s: State): Option<real> {
    if !s.link.connected then None
    else if s.link.sentLogout then Some(s.o.lastSent + c.logoutTimeout)
    else if !s.link.receivedLogon then Some(s.i.lastReceived + c.logonTimeout)
    else if s.clock.heartBtInt == 0.0 then None
    else
      var quiet := Earlier(s.i.lastReceived + 2.4 * s.clock.heartBtInt, TestDue(s));
      Some(if s.i.testRequests == 0 then Earlier(quiet, s.o.lastSent + s.clock.heartBtInt) else quiet)
  }

  function OnDeadline(c: Config, s: State): State {
    var sinceSent := s.clock.now - s.o.lastSent;
    var sinceReceived := s.clock.now - s.i.lastReceived;
    if !s.link.connected then s
    else if s.link.sentLogout then
      if sinceSent >= c.logoutTimeout then Disconnect(c, s) else s
    else if !s.link.receivedLogon then
      if sinceReceived >= c.logonTimeout then Disconnect(c, s) else s
    else if s.clock.heartBtInt == 0.0 then s
    else if sinceReceived >= 2.4 * s.clock.heartBtInt then
      Disconnect(c, if c.logoutBeforeTimeout then InitiateLogout(c, s) else s)
    else if sinceReceived >= 1.2 * (s.i.testRequests + 1) as real * s.clock.heartBtInt then
      Send(c, s.(i := s.i.(testRequests := s.i.testRequests + 1)), Plain(TestRequest), false)
    else if sinceSent >= s.clock.heartBtInt && s.i.testRequests == 0 then
      Send(c, s, Plain(Heartbeat), false)
    else s
  }

  // ----- schedule -----

  /** Say goodbye, then drop the connection. */
  function LogOff(c: Config, s: State): State {
    if !s.link.connected then s
    else Disconnect(c, if LoggedOn(s.link) && !s.link.sentLogout then InitiateLogout(c, s) else s)
  }

  /** The store was stamped in another occurrence of the window than the present one. */
  predicate ScheduledResetDue(c: Config, utc: int, created: int) {
    !c.schedule.nonStop && IsInRange(c.schedule, utc) && !IsInSameRange(c.schedule, utc, created)
  }

  function OnScheduleTick(c: Config, s: State): State {
    if c.schedule.nonStop then s
    else if !IsInRange(c.schedule, s.clock.utc) then LogOff(c, s)
    else if ScheduledResetDue(c, s.clock.utc, s.clock.created) then
      var s1 := ResetStore(LogOff(c, s));
      s1.(clock := s1.clock.(scheduledResets := s1.clock.scheduledResets + [s.clock.utc]))
    else
      var open := IsInRange(c.logonSchedule, s.clock.utc);
      var s1 := if s.link.connected && LoggedOn(s.link) && !s.link.sentLogout && !open
                then InitiateLogout(c, s) else s;
      if s1.link.pendingLogon && s1.link.connected && !s1.link.sentLogon && open then
        SendLogon(c, s1.(link := s1.link.(pendingLogon := false)))
      else s1
  }

  // ----- the run loop -----

  /** Refreshing the store from its medium changes nothing observable, as Stores shows. */
  function OnAttach(c: Config, s: State): State {
    if s.link.connected then s
    else
      var s1 := s.(link := s.link.(connected := true),
                   o := s.o.(lastSent := s.clock.now),
                   i := s.i.(lastReceived := s.clock.now, testRequests := 0));
      if !c.initiator then s1
      else
        var s2 := if c.resetOnLogon then ResetStore(s1) else s1;
        if IsInRange(c.logonSchedule, s2.clock.utc) then SendLogon(c, s2)
        else s2.(link := s2.link.(pendingLogon := true))
  }

  function SetSeqNums(s: State, sender: Option<SeqNum>, target: Option<SeqNum>): State {
    var nextSender := if sender.Some? then sender.value else s.o.nextSender;
    var nextTarget := if target.Some? then target.value else s.i.nextTarget;
    s.(o := s.o.(nextSender := nextSender, base := nextSender, numbered := [], mark := |s.o.wire|),
       i := s.i.(nextTarget := nextTarget, delivered := []),
       clock := s.clock.(epoch := s.clock.epoch + 1))
  }

  datatype Event =
    | SendMessage(msg: Msg, vetoed: bool)
    | Attach
    | Logoff
    | ChangeSeqNums(sender: Option<SeqNum>, target: Option<SeqNum>)
    | Receive(frame: Frame)
    | PeerClosed
    | ScheduleTick
    | Deadline

  /** An event with the monotonic and the wall clock time at which it is handled. */
  datatype Timed = At(now: real, utc: int, event: Event)

  function Apply(c: Config, s0: State, e: Timed): State
    requires StashKeyed(s0.rec.stash)
  {
    var s := s0.(clock := s0.clock.(now := e.now, utc := e.utc));
    match e.event
    case SendMessage(m, vetoed) => Send(c, s, m, vetoed)
    case Attach => OnAttach(c, s)
    case Logoff => if LoggedOn(s.link) then InitiateLogout(c, s) else s
    case ChangeSeqNums(sender, target) => SetSeqNums(s, sender, target)
    case Receive(frame) => if s.link.connected then OnInbound(c, s, frame) else s
    case PeerClosed => Disconnect(c, s)
    case ScheduleTick => OnScheduleTick(c, s)
    case Deadline => OnDeadline(c, s)
  }

  lemma {:induction false} InboundKeepsKeys(c: Config, s: State, frame: Frame)
    requires StashKeyed(s.rec.stash)
    ensures StashKeyed(OnInbound(c, s, frame).rec.stash)
  {
    hide Send, Process, Drain;
    if frame.Parsed? {
      ProcessKeepsKeys(c, s, frame.inbound);
      var s1 := Process(c, s, frame.inbound).s;
      DrainKeepsKeys(c, s1.(rec := s1.rec.(lastWasQueued := false)));
    }
  }

  lemma LogOffKeepsKeys(c: Config, s: State)
    requires StashKeyed(s.rec.stash)
    ensures StashKeyed(LogOff(c, s).rec.stash)
  {
    hide Send;
  }

  lemma TickKeepsKeys(c: Config, s: State)
    requires StashKeyed(s.rec.stash)
    ensures StashKeyed(OnScheduleTick(c, s).rec.stash)
  {
    hide Send, IsInRange, ScheduledResetDue, LogOff;
    LogOffKeepsKeys(c, s);
  }

  lemma {:induction false} ApplyKeepsKeys(c: Config, s0: State, e: Timed)
    requires StashKeyed(s0.rec.stash)
    ensures StashKeyed(Apply(c, s0, e).rec.stash)
  {
    hide Send, OnInbound, OnScheduleTick, IsInRange;
    var s := s0.(clock := s0.clock.(now := e.now, utc := e.utc));
    TickKeepsKeys(c, s);
    if e.event.Receive? {
      InboundKeepsKeys(c, s, e.event.frame);
    }
  }

  function Run(c: Config, s: State, es: seq<Timed>): (r: State)
    requires StashKeyed(s.rec.stash)
    ensures StashKeyed(r.rec.stash)
  {
    if es == [] then s
    else
      var last := |es| - 1;
      ApplyKeepsKeys(c, Run(c, s, es[..last]), es[last]);
      Apply(c, Run(c, s, es[..last]), es[last])
  }
}

/**
 The whole recovery of a gap: one session asks for it piece by piece, the other answers, and the
 answers are what the first one receives, until nothing is missing any more.
 */
module ClosedLoop {
  import opened Messages
  import Schedules
  import opened SessionSpec
  import opened SessionInvariants
  import opened GapRecovery
  import opened ResendChunks

  // ----- the two sides -----

  /** Ready to answer requests: logged on, and with nothing of its own to recover. */
  ghost predicate Answering(c: Config, s: State) {
    && s.link.connected && s.link.receivedLogon && OutgoingOk(c, s.o) && Typed(s.o.saved)
    && s.rec.stash == map[] && s.rec.resendRange.None?
  }

  /** The request for a piece. */
  predicate IsRequestFor(m: Msg, r: Range) {
    m.kind.ResendRequest? && m.beginSeqNo == Some(r.begin) && m.endSeqNo == Some(r.chunkEnd)
  }

  /** Waiting for the piece `r`: its request is the last thing on the wire, and whatever is stashed lies
      behind the gap. */
  ghost predicate Asking(c: Config, s: State, r: Range) {
    && s.link.connected && s.link.receivedLogon && StashKeyed(s.rec.stash)
    && s.rec.resendRange == Some(r) && r == Chunk(c, r.begin, r.fullEnd)
    && s.i.nextTarget == r.begin <= r.fullEnd && (forall k | k in s.rec.stash :: k > r.fullEnd)
    && s.o.wire != [] && IsRequestFor(s.o.wire[|s.o.wire| - 1], r)
  }

  /** Asking for a piece puts its request on the wire. */
  lemma RequestIsSent(c: Config, s: State, begin: nat, received: nat)
    requires s.link.connected && begin < received && c.maxResend > 0
    ensures var r := SendResendRequest(c, s, begin, received);
            && r == s.(o := r.o, rec := s.rec.(resendRange := Some(Chunk(c, begin, received - 1)),
                                                asked := s.rec.asked + [Chunk(c, begin, received - 1)]))
            && r.o.wire != [] && IsRequestFor(r.o.wire[|r.o.wire| - 1], Chunk(c, begin, received - 1))
  {
  }

  /** A gap opens: a message arrives too early at a session that has nothing stashed. */
  lemma {:induction false} GapOpens(c: Config, s: State, e: Timed, f: Inbound)
    requires s.link.connected && s.link.receivedLogon && s.rec.stash == map[] && s.rec.resendRange.None? && c.maxResend > 0
    requires e.event == Receive(Parsed(f)) && f.msg.kind.App? && Passes(c, f.checks)
    requires f.msg.seqNum.Some? && f.msg.seqNum.value > s.i.nextTarget
    ensures var n := f.msg.seqNum.value;
            var r := Apply(c, s, e);
            && Asking(c, r, Chunk(c, s.i.nextTarget, n - 1)) && r.i == s.i
            && r.rec.stash == map[n := f.(checks := f.later)]
  {
    hide SendResendRequest, Settle;
    var q := Clocked(s, e);
    var n := f.msg.seqNum.value;
    var h := Process(c, q, f);
    assert h == Handled(SendResendRequest(c, Stashed(q, f, n), s.i.nextTarget, n), false);
    RequestIsSent(c, Stashed(q, f, n), s.i.nextTarget, n);
    SettleIsQuiet(c, h.s);
  }

  // ----- what is asked and what is answered -----

  /** 999999 once meant "up to the end", and is still read that way: a request is answered as asked if and
      only if it does not end there, or nothing lies behind. */
  lemma AnsweredAsAskedIff(o: Outgoing, m: Msg)
    requires m.endSeqNo.Some? && 1 <= m.endSeqNo.value < o.nextSender
    ensures RequestedEnd(o, m) == m.endSeqNo.value <==> m.endSeqNo.value != 999_999 || o.nextSender == 1_000_000
  {
  }

  /** No piece of the gap ends at 999999. */
  predicate AvoidsSentinel(c: Config, r: Range)
    requires c.maxResend > 0
  {
    r.fullEnd != 999_999 && !(r.begin <= 999_999 < r.fullEnd && (1_000_000 - r.begin) % c.maxResend == 0)
  }

  lemma RemainderIs(x: int, m: int, q: int, r: int)
    requires m > 0 && 0 <= r < m && x == q * m + r
    ensures x / m == q && x % m == r
  {
    var k := x / m - q;
    assert k * m == r - x % m by { Distribute(x / m, q, m); }
    MulLess(k, 1, m);
    MulLess(-1, k, m);
  }

  lemma Distribute(a: int, b: int, m: int)
    ensures (a - b) * m == a * m - b * m
  {
  }

  lemma ModStep(x: int, m: int)
    requires m > 0
    ensures (x - m) % m == x % m && m % m == 0
  {
    Distribute(x / m, 1, m);
    RemainderIs(x - m, m, x / m - 1, x % m);
    RemainderIs(m, m, 1, 0);
  }

  lemma PieceAvoidsSentinel(c: Config, r: Range)
    requires c.maxResend > 0 && AvoidsSentinel(c, r) && r == Chunk(c, r.begin, r.fullEnd) && r.begin <= r.fullEnd
    ensures r.chunkEnd != 999_999
    ensures r.chunkEnd < r.fullEnd ==> AvoidsSentinel(c, Chunk(c, r.chunkEnd + 1, r.fullEnd))
  {
    ModStep(1_000_000 - r.begin, c.maxResend);
  }

  // ----- one round -----

  /** A request of `b` arrives at `a`. Every number is asked for once, so one set tells which resends the
      application refuses in all rounds. */
  ghost predicate RequestArrives(c: Config, e: Timed, b: State, vetoes: set<nat>) {
    && e.event.Receive? && e.event.frame.Parsed? && b.o.wire != []
    && e.event.frame.inbound.msg == b.o.wire[|b.o.wire| - 1]
    && Passes(c, e.event.frame.inbound.checks) && e.event.frame.inbound.checks.resendVetoes == vetoes
  }

  lemma {:induction false} RequestAnswered(c: Config, s: State, e: Timed, b: State, vetoes: set<nat>, r: Range)
    requires Answering(c, s) && RequestArrives(c, e, b, vetoes) && IsRequestFor(b.o.wire[|b.o.wire| - 1], r)
    requires 1 <= r.chunkEnd < s.o.nextSender && r.chunkEnd != 999_999
    ensures var t := Apply(c, s, e);
            var f := e.event.frame.inbound;
            && Answering(c, t) && t.o.saved == s.o.saved && t.o.nextSender == s.o.nextSender
            && Transmitted(s, t) == ResendAnswer(c, s.o.saved, vetoes, r.begin, r.chunkEnd)
  {
    hide Process, Settle, ResendAnswer, OutgoingOk;
    var (q, f) := (Clocked(s, e), e.event.frame.inbound);
    AnswerOnWire(c, q, f);
    AnswerKeepsLink(c, q, f);
    var h := Process(c, q, f);
    SettleIsQuiet(c, h.s);
    AnsweredAsAskedIff(s.o, f.msg);
    var answer := ResendAnswer(c, s.o.saved, vetoes, r.begin, r.chunkEnd);
    AnswerIsDuplicate(c, s.o.saved, vetoes, r.begin, r.chunkEnd);
    TransmitKeeps(c, s.o, answer, h.s.o.lastSent);
  }

  lemma {:induction false} AnswerKeepsLink(c: Config, s: State, f: Inbound)
    requires f.msg.kind.ResendRequest? && Passes(c, f.checks) && s.link.connected && s.link.receivedLogon
    ensures Process(c, s, f).s.link == s.link
  {
    hide Send, ResendAnswer, RequestedEnd;
  }

  /** The answer arrives: the piece is consumed and its messages delivered. */
  lemma {:induction false} PieceArrives(ca: Config, o: Outgoing, cb: Config, b: State, r: Range, vetoes: set<nat>, es: seq<Timed>)
    returns (mid: State)
    requires OutgoingOk(ca, o) && Typed(o.saved) && Asking(cb, b, r) && cb.maxResend > 0
    requires Arrivals(cb, es, ResendAnswer(ca, o.saved, vetoes, r.begin, r.chunkEnd))
    ensures var messages := Sendable(ca, o.saved, vetoes, r.begin, r.chunkEnd);
            && StashKeyed(mid.rec.stash) && Run(cb, b, es) == Settle(cb, mid)
            && mid.i.nextTarget == r.chunkEnd + 1 && mid.rec.stash == b.rec.stash && mid.link == b.link
            && mid.rec.resendRange == Some(r) && mid.rec.asked == b.rec.asked && mid.o == b.o
            && (forall j | 0 <= j < |messages| :: IsTile(messages[j]))
            && mid.i.delivered == b.i.delivered + Deliveries(messages)
  {
    hide Settle, Run, ResendAnswer, Tiles, OutgoingOk, Deliveries, Sendable;
    AnswerIsReceivable(ca, o, vetoes, r.begin, r.chunkEnd);
    mid := LastTile(cb, b, es, ResendAnswer(ca, o.saved, vetoes, r.begin, r.chunkEnd), r.begin, r.chunkEnd + 1);
  }

  /** A piece that is not the last one is followed by the request for the next. */
  lemma {:induction false} NextPieceAsked(c: Config, s: State, r: Range)
    requires s.link.connected && s.link.receivedLogon && StashKeyed(s.rec.stash) && c.maxResend > 0
    requires s.rec.resendRange == Some(r) && s.i.nextTarget == r.chunkEnd + 1 <= r.fullEnd
    requires forall k | k in s.rec.stash :: k > r.fullEnd
    ensures var t := Settle(c, s);
            && Asking(c, t, Chunk(c, r.chunkEnd + 1, r.fullEnd)) && t.i == s.i && t.rec.stash == s.rec.stash
  {
    hide SendResendRequest;
    var s1 := s.(rec := s.rec.(lastWasQueued := false));
    assert Drain(c, s1) == Handled(s1, false);
    RequestIsSent(c, s1, s.i.nextTarget, r.fullEnd + 1);
  }

  /** The last piece ends the recovery: the range is cleared, and nothing stashed is left that is due. */
  lemma {:induction false} LastPieceSettles(c: Config, s: State, r: Range)
    requires s.link.connected && StashKeyed(s.rec.stash) && s.rec.resendRange == Some(r)
    requires s.i.nextTarget == r.fullEnd + 1 && r.chunkEnd == r.fullEnd && (forall k | k in s.rec.stash :: k > r.fullEnd)
    ensures var t := Settle(c, s); t.rec.resendRange.None? && StashAbove(t)
  {
    hide Drain, SendResendRequest, Step;
    var s1 := s.(rec := s.rec.(lastWasQueued := false));
    DrainStep(c, s1);
    DrainKeepsCourse(c, s1);
    DrainOnlyAdvances(c, s1);
    DrainKeepsConnection(c, s1);
  }

  lemma {:induction false} DrainOnlyAdvances(c: Config, s: State)
    requires StashKeyed(s.rec.stash)
    ensures Drain(c, s).s.i.nextTarget >= s.i.nextTarget
  {
    hide Drain, Sound;
    DrainStep(c, s);
    DrainKeepsCourse(c, s);
  }

  lemma {:induction false} DrainKeepsConnection(c: Config, s: State)
    requires StashKeyed(s.rec.stash)
    ensures Drain(c, s).s.link.connected == s.link.connected
  {
    hide Drain, Sound, Evolves;
    DrainStep(c, s);
  }

  // ----- the conversation -----

  /** One request reaching the other side, and the whole answer coming back. */
  datatype Round = Round(request: Timed, answer: seq<Timed>)

  /** The rounds take place one after the other, each as long as there is something to ask for. */
  ghost predicate Conversation(ca: Config, a: State, cb: Config, b: State, vetoes: set<nat>, rounds: seq<Round>)
    requires StashKeyed(a.rec.stash) && StashKeyed(b.rec.stash)
    decreases |rounds|
  {
    rounds == [] ||
    (ApplyKeepsKeys(ca, a, rounds[0].request);
     && Recovering(b) && RequestArrives(ca, rounds[0].request, b, vetoes)
     && Arrivals(cb, rounds[0].answer, Transmitted(a, Apply(ca, a, rounds[0].request)))
     && Conversation(ca, Apply(ca, a, rounds[0].request), cb, Run(cb, b, rounds[0].answer), vetoes, rounds[1..]))
  }

  /** Where the asking side ends up. */
  function Outcome(cb: Config, b: State, rounds: seq<Round>): (r: State)
    requires StashKeyed(b.rec.stash)
    ensures StashKeyed(r.rec.stash)
    decreases |rounds|
  {
    if rounds == [] then b else Outcome(cb, Run(cb, b, rounds[0].answer), rounds[1..])
  }

  function Pieces(missing: nat, max: nat): nat requires max > 0 { (missing + max - 1) / max }

  lemma PiecesStep(missing: nat, max: nat)
    requires max > 0 && missing > 0
    ensures Pieces(missing, max) == if missing <= max then 1 else 1 + Pieces(missing - max, max)
  {
    var x := missing + max - 1;
    if missing <= max {
      RemainderIs(x, max, 1, missing - 1);
    } else {
      var y := x - max;
      Distribute(y / max, -1, max);
      RemainderIs(x, max, y / max + 1, y % max);
    }
  }

  lemma {:induction false} ResentJoin(saved: map<nat, Msg>, vetoes: set<nat>, next: nat, mid: nat, end: nat)
    requires next <= mid + 1 && mid <= end
    ensures Resent(saved, vetoes, next, end) == Resent(saved, vetoes, next, mid) + Resent(saved, vetoes, mid + 1, end)
    decreases mid + 1 - next
  {
    if next <= mid {
      ResentJoin(saved, vetoes, next + 1, mid, end);
    } else {
      assert [] + Resent(saved, vetoes, mid + 1, end) == Resent(saved, vetoes, mid + 1, end);
    }
  }

  lemma {:induction false} DeliveriesJoin(a: seq<Msg>, b: seq<Msg>)
    requires (forall j | 0 <= j < |a| :: IsTile(a[j])) && (forall j | 0 <= j < |b| :: IsTile(b[j]))
    ensures forall j | 0 <= j < |a + b| :: IsTile((a + b)[j])
    ensures Deliveries(a + b) == Deliveries(a) + Deliveries(b)
  {
    if b == [] {
      assert a + b == a;
    } else {
      var last := |b| - 1;
      assert (a + b)[..|a + b| - 1] == a + b[..last];
      DeliveriesJoin(a, b[..last]);
    }
  }

  lemma SendableJoin(c: Config, saved: map<nat, Msg>, vetoes: set<nat>, begin: nat, mid: nat, end: nat)
    requires begin <= mid < end
    ensures Sendable(c, saved, vetoes, begin, end) == Sendable(c, saved, vetoes, begin, mid) + Sendable(c, saved, vetoes, mid + 1, end)
  {
    hide Resent;
    ResentJoin(saved, vetoes, begin, mid, end);
  }

  /** What the asking side has when its gap is filled. */
  ghost predicate Recovered(ca: Config, saved: map<nat, Msg>, vetoes: set<nat>, cb: Config, b: State, r: Range, mid: State, final: State) {
    var messages := Sendable(ca, saved, vetoes, r.begin, r.fullEnd);
    && StashKeyed(mid.rec.stash) && final == Settle(cb, mid)
    && mid.i.nextTarget == r.fullEnd + 1 && mid.rec.stash == b.rec.stash && mid.link == b.link
    && (forall j | 0 <= j < |messages| :: IsTile(messages[j]))
    && mid.i.delivered == b.i.delivered + Deliveries(messages)
    && final.rec.resendRange.None? && StashAbove(final)
  }

  /** The first piece and the rest make the whole gap. */
  lemma {:induction false} RecoveredPieceByPiece(
    ca: Config, saved: map<nat, Msg>, vetoes: set<nat>, cb: Config, b: State, b1: State, r: Range, mid: State, final: State)
    requires r.begin <= r.chunkEnd < r.fullEnd && b1.rec.stash == b.rec.stash && b1.link == b.link
    requires var first := Sendable(ca, saved, vetoes, r.begin, r.chunkEnd);
             (forall j | 0 <= j < |first| :: IsTile(first[j])) && b1.i.delivered == b.i.delivered + Deliveries(first)
    requires Recovered(ca, saved, vetoes, cb, b1, Chunk(cb, r.chunkEnd + 1, r.fullEnd), mid, final)
    ensures Recovered(ca, saved, vetoes, cb, b, r, mid, final)
  {
    hide Sendable, Deliveries, Settle;
    SendableJoin(ca, saved, vetoes, r.begin, r.chunkEnd, r.fullEnd);
    DeliveriesJoin(Sendable(ca, saved, vetoes, r.begin, r.chunkEnd), Sendable(ca, saved, vetoes, r.chunkEnd + 1, r.fullEnd));
  }

  lemma {:induction false} OneRound(ca: Config, a: State, cb: Config, b: State, r: Range, vetoes: set<nat>, round: Round)
    returns (mid: State)
    requires Answering(ca, a) && Asking(cb, b, r) && r.fullEnd < a.o.nextSender
    requires cb.maxResend > 0 && AvoidsSentinel(cb, r)
    requires RequestArrives(ca, round.request, b, vetoes)
    requires Arrivals(cb, round.answer, Transmitted(a, Apply(ca, a, round.request)))
    ensures var messages := Sendable(ca, a.o.saved, vetoes, r.begin, r.chunkEnd);
            var (a1, b1) := (Apply(ca, a, round.request), Run(cb, b, round.answer));
            && Answering(ca, a1) && a1.o.saved == a.o.saved && a1.o.nextSender == a.o.nextSender
            && (forall j | 0 <= j < |messages| :: IsTile(messages[j]))
            && (if r.chunkEnd < r.fullEnd then
                  && Asking(cb, b1, Chunk(cb, r.chunkEnd + 1, r.fullEnd)) && b1.rec.stash == b.rec.stash && b1.link == b.link
                  && b1.i.delivered == b.i.delivered + Deliveries(messages)
                else b1.rec.resendRange.None? && Recovered(ca, a.o.saved, vetoes, cb, b, r, mid, b1))
  {
    hide Apply, Run, Settle, OutgoingOk, Deliveries, Sendable, ResendAnswer;
    PieceAvoidsSentinel(cb, r);
    RequestAnswered(ca, a, round.request, b, vetoes, r);
    mid := PieceArrives(ca, a.o, cb, b, r, vetoes, round.answer);
    if r.chunkEnd < r.fullEnd {
      NextPieceAsked(cb, mid, r);
      assert Settle(cb, mid).link == mid.link by { SettleIsQuiet(cb, mid); }
    } else {
      LastPieceSettles(cb, mid, r);
    }
  }

  /** Closed-loop recovery. A session that waits for the first piece of a gap talks to one that can answer,
      for as long as it has something to ask. A gap of n messages is asked for in at most n / max rounds,
      rounded up, and is filled exactly in that last round. Then the session has passed through a state
      that expects the number behind the gap and has delivered exactly the resendable messages of the
      gap, once each and in order; from there it has replayed its stash as far as it was due. */
  lemma {:induction false} GapIsRecovered(ca: Config, a: State, cb: Config, b: State, r: Range, vetoes: set<nat>, rounds: seq<Round>)
    returns (mid: State)
    requires Answering(ca, a) && Asking(cb, b, r) && r.fullEnd < a.o.nextSender
    requires cb.maxResend > 0 && AvoidsSentinel(cb, r)
    requires Conversation(ca, a, cb, b, vetoes, rounds)
    ensures var needed := Pieces(r.fullEnd - r.begin + 1, cb.maxResend);
            var final := Outcome(cb, b, rounds);
            && |rounds| <= needed
            && (final.rec.resendRange.None? <==> |rounds| == needed)
            && (|rounds| == needed ==> Recovered(ca, a.o.saved, vetoes, cb, b, r, mid, final))
    decreases |rounds|
  {
    hide Apply, Run, Settle, OutgoingOk, Deliveries, Sendable, Pieces, Typed, Recovered, Arrivals, RequestArrives, AvoidsSentinel;
    PiecesStep(r.fullEnd - r.begin + 1, cb.maxResend);
    if rounds == [] {
      mid := b;
    } else {
      mid := OneRound(ca, a, cb, b, r, vetoes, rounds[0]);
      var (a1, b1) := (Apply(ca, a, rounds[0].request), Run(cb, b, rounds[0].answer));
      if r.chunkEnd < r.fullEnd {
        PieceAvoidsSentinel(cb, r);
        mid := GapIsRecovered(ca, a1, cb, b1, Chunk(cb, r.chunkEnd + 1, r.fullEnd), vetoes, rounds[1..]);
        if |rounds| == Pieces(r.fullEnd - r.begin + 1, cb.maxResend) {
          RecoveredPieceByPiece(ca, a.o.saved, vetoes, cb, b, b1, r, mid, Outcome(cb, b, rounds));
        }
      } else {
        assert rounds[1..] == [];
      }
    }
  }
}

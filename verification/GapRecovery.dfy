/**
 Resend answers and what they do to a receiver: the answer tiles the requested range, and a
 session that receives it has recovered the gap exactly.
 */
module GapRecovery {
  import opened Messages
  import opened SessionSpec
  import opened SessionInvariants

  // ----- tiling -----

  predicate IsGapFill(m: Msg) { m.kind.SequenceReset? && m.gapFill && m.newSeqNo.Some? && m.seqNum.Some? }

  /** A resent message stands for its own number, a GapFill for [MsgSeqNum, NewSeqNo). */
  predicate IsTile(m: Msg) { m.seqNum.Some? && (m.kind.SequenceReset? ==> IsGapFill(m)) }

  function First(m: Msg): nat requires IsTile(m) { m.seqNum.value }

  function After(m: Msg): nat requires IsTile(m) {
    if m.kind.SequenceReset? then m.newSeqNo.value else m.seqNum.value + 1
  }

  /** The messages cover [lo, hi) in ascending order, without gap or overlap. */
  ghost predicate Tiles(ms: seq<Msg>, lo: nat, hi: nat) {
    && (forall j | 0 <= j < |ms| :: IsTile(ms[j]) && First(ms[j]) < After(ms[j]))
    && (forall j, k | 0 <= j && k == j + 1 && k < |ms| :: After(ms[j]) == First(ms[k]))
    && (if ms == [] then lo == hi else First(ms[0]) == lo && After(ms[|ms| - 1]) == hi)
  }

  ghost predicate NoAdjacentGapFills(ms: seq<Msg>) {
    forall j, k | 0 <= j && k == j + 1 && k < |ms| :: !(ms[j].kind.SequenceReset? && ms[k].kind.SequenceReset?)
  }

  ghost predicate SavedKeyed(saved: map<nat, Msg>) {
    forall k | k in saved :: saved[k].seqNum == Some(k)
  }

  /** The messages of [next, end] that are sent again, in order. */
  function Resent(saved: map<nat, Msg>, vetoes: set<nat>, next: nat, end: nat): seq<Msg>
    decreases end + 1 - next
  {
    if next > end then []
    else if Resends(saved, vetoes, next) then [ResendOf(saved[next])] + Resent(saved, vetoes, next + 1, end)
    else Resent(saved, vetoes, next + 1, end)
  }

  /** The messages that are not GapFills. */
  function Originals(ms: seq<Msg>): seq<Msg> {
    if ms == [] then []
    else (if ms[0].kind.SequenceReset? then [] else [ms[0]]) + Originals(ms[1..])
  }

  lemma {:induction false} OriginalsOfJoin(a: seq<Msg>, b: seq<Msg>)
    ensures Originals(a + b) == Originals(a) + Originals(b)
  {
    if a == [] {
      assert a + b == b;
    } else {
      assert (a + b)[1..] == a[1..] + b;
      OriginalsOfJoin(a[1..], b);
    }
  }

  lemma TilesJoin(a: seq<Msg>, b: seq<Msg>, lo: nat, mid: nat, hi: nat)
    requires Tiles(a, lo, mid) && Tiles(b, mid, hi)
    ensures Tiles(a + b, lo, hi)
  {
    if a == [] {
      assert a + b == b;
    } else if b == [] {
      assert a + b == a;
    }
  }

  lemma GapFillTiles(begin: nat, end: nat)
    requires begin < end
    ensures Tiles([GapFillFor(begin, end)], begin, end)
  {
  }

  lemma ResendTiles(m: Msg)
    requires m.seqNum.Some? && !IsAdmin(m.kind)
    ensures Tiles([ResendOf(m)], m.seqNum.value, m.seqNum.value + 1)
  {
  }

  lemma NothingTiles(n: nat)
    ensures Tiles([], n, n)
  {
  }

  /** For every store content and every veto pattern the answer covers the range exactly once. */
  lemma {:induction false} ReplayTiles(saved: map<nat, Msg>, vetoes: set<nat>, next: nat, end: nat, gap: Option<nat>)
    requires next <= end + 1 && SavedKeyed(saved) && (gap.Some? ==> gap.value < next)
    ensures Tiles(Replay(saved, vetoes, next, end, gap), if gap.Some? then gap.value else next, end + 1)
    decreases end + 1 - next
  {
    hide Tiles, GapFillFor, ResendOf;
    NothingTiles(next);
    if next > end {
      if gap.Some? {
        GapFillTiles(gap.value, end + 1);
      }
    } else if Resends(saved, vetoes, next) {
      var lo := if gap.Some? then gap.value else next;
      var head := if gap.Some? then [GapFillFor(gap.value, next)] else [];
      var own := [ResendOf(saved[next])];
      var rest := Replay(saved, vetoes, next + 1, end, None);
      ReplayTiles(saved, vetoes, next + 1, end, None);
      if gap.Some? {
        GapFillTiles(gap.value, next);
      }
      ResendTiles(saved[next]);
      TilesJoin(head, own, lo, next, next + 1);
      TilesJoin(head + own, rest, lo, next + 1, end + 1);
    } else {
      ReplayTiles(saved, vetoes, next + 1, end, if gap.Some? then gap else Some(next));
    }
  }

  /** Everything in the answer is a possible duplicate; GapFills are never adjacent; and apart from
      GapFills the answer is exactly the messages to be sent again, in order. */
  lemma {:induction false} ReplayContents(saved: map<nat, Msg>, vetoes: set<nat>, next: nat, end: nat, gap: Option<nat>)
    requires next <= end + 1
    ensures var ms := Replay(saved, vetoes, next, end, gap);
            && NoAdjacentGapFills(ms)
            && Originals(ms) == Resent(saved, vetoes, next, end)
            && (forall j | 0 <= j < |ms| :: ms[j].possDup && (ms[j].kind.SequenceReset? || !IsAdmin(ms[j].kind)))
  {
    hide Replay, Originals, Resent;
    ReplayOriginals(saved, vetoes, next, end, gap);
    ReplayKinds(saved, vetoes, next, end, gap);
    ReplayIsDuplicate(saved, vetoes, next, end, gap);
  }

  lemma {:induction false} ReplayOriginals(saved: map<nat, Msg>, vetoes: set<nat>, next: nat, end: nat, gap: Option<nat>)
    requires next <= end + 1
    ensures Originals(Replay(saved, vetoes, next, end, gap)) == Resent(saved, vetoes, next, end)
    decreases end + 1 - next
  {
    if next <= end {
      if Resends(saved, vetoes, next) {
        var head := if gap.Some? then [GapFillFor(gap.value, next)] else [];
        var own := [ResendOf(saved[next])];
        ReplayOriginals(saved, vetoes, next + 1, end, None);
        OriginalsOfJoin(head, own);
        OriginalsOfJoin(head + own, Replay(saved, vetoes, next + 1, end, None));
      } else {
        ReplayOriginals(saved, vetoes, next + 1, end, if gap.Some? then gap else Some(next));
      }
    }
  }

  lemma {:induction false} ReplayKinds(saved: map<nat, Msg>, vetoes: set<nat>, next: nat, end: nat, gap: Option<nat>)
    requires next <= end + 1
    ensures var ms := Replay(saved, vetoes, next, end, gap);
            NoAdjacentGapFills(ms) && forall j | 0 <= j < |ms| :: ms[j].kind.SequenceReset? || !IsAdmin(ms[j].kind)
    decreases end + 1 - next
  {
    if next <= end {
      if Resends(saved, vetoes, next) {
        ReplayKinds(saved, vetoes, next + 1, end, None);
        KindsJoin(if gap.Some? then [GapFillFor(gap.value, next)] else [], ResendOf(saved[next]),
                  Replay(saved, vetoes, next + 1, end, None));
      } else {
        ReplayKinds(saved, vetoes, next + 1, end, if gap.Some? then gap else Some(next));
      }
    }
  }

  lemma KindsJoin(head: seq<Msg>, m: Msg, rest: seq<Msg>)
    requires |head| <= 1 && (forall j | 0 <= j < |head| :: head[j].kind.SequenceReset?)
    requires !IsAdmin(m.kind) && NoAdjacentGapFills(rest)
    requires forall j | 0 <= j < |rest| :: rest[j].kind.SequenceReset? || !IsAdmin(rest[j].kind)
    ensures var ms := head + [m] + rest;
            NoAdjacentGapFills(ms) && forall j | 0 <= j < |ms| :: ms[j].kind.SequenceReset? || !IsAdmin(ms[j].kind)
  {
    var (ms, n) := (head + [m] + rest, |head| + 1);
    assert ms[n - 1] == m;
    assert forall j | n <= j < |ms| :: ms[j] == rest[j - n];
  }

  /** The answer to a request, persisted or not. */
  lemma {:induction false} AnswerTiles(c: Config, saved: map<nat, Msg>, vetoes: set<nat>, begin: nat, end: nat)
    requires begin <= end && SavedKeyed(saved)
    ensures var ms := ResendAnswer(c, saved, vetoes, begin, end);
            && Tiles(ms, begin, end + 1)
            && NoAdjacentGapFills(ms)
            && Originals(ms) == (if c.persist then Resent(saved, vetoes, begin, end) else [])
            && (forall j | 0 <= j < |ms| :: ms[j].possDup && (ms[j].kind.SequenceReset? || !IsAdmin(ms[j].kind)))
  {
    if c.persist {
      ReplayTiles(saved, vetoes, begin, end, None);
      ReplayContents(saved, vetoes, begin, end, None);
    }
  }

  // ----- the receiving session -----

  /** The environment finds nothing wrong with a message. */
  predicate Passes(c: Config, k: Checks) {
    && k.beginStringOk && k.dictionaryOk && !k.sendingTime.Missing?
    && (c.checkLatency ==> k.sendingTime.Fresh?)
    && (c.checkCompIds ==> k.compIdsOk)
    && k.callback.Accept?
  }

  function Deliveries(ms: seq<Msg>): seq<Delivery>
    requires forall j | 0 <= j < |ms| :: IsTile(ms[j])
  {
    if ms == [] then []
    else
      var last := |ms| - 1;
      Deliveries(ms[..last]) + (if ms[last].kind.SequenceReset? then [] else [Delivery(ms[last], First(ms[last]))])
  }

  /** What a receiver may be sent in answer to a resend request. */
  predicate Receivable(m: Msg) { IsTile(m) && (m.kind.SequenceReset? || m.kind.App?) }

  /** One tile, received when due: exactly its numbers are consumed, and an application message is
      delivered. */
  lemma {:induction false} ReceiveTile(c: Config, s: State, f: Inbound)
    requires Receivable(f.msg) && First(f.msg) < After(f.msg) && Passes(c, f.checks) && s.link.receivedLogon
    requires s.i.nextTarget == First(f.msg)
    requires forall k | k in s.rec.stash :: k >= After(f.msg)
    ensures var h := Process(c, s, f);
            && !h.dropped && h.s.link == s.link && h.s.o == s.o && h.s.rec == s.rec
            && h.s.i.nextTarget == After(f.msg)
            && h.s.i.delivered == s.i.delivered
                                  + (if f.msg.kind.SequenceReset? then [] else [Delivery(f.msg, First(f.msg))])
  {
    hide Send;
    if f.msg.kind.SequenceReset? {
      var n := f.msg.newSeqNo.value;
      assert (map k | k in s.rec.stash && k >= n :: s.rec.stash[k]) == s.rec.stash;
    }
  }

  /** The whole gap has been asked for at once, so no further request can follow. */
  predicate OneChunk(r: Recovery) { r.resendRange.Some? ==> r.resendRange.value.chunkEnd == r.resendRange.value.fullEnd }

  /** Up to `n` belongs to the piece asked for last. */
  predicate WithinPiece(r: Recovery, n: nat) { r.resendRange.Some? && n <= r.resendRange.value.chunkEnd }

  /** Having expected nothing beyond `n`, the session has sent nothing and made no request, unless the gap
      has more pieces and `n` lies behind the current one; an outstanding range can only be cleared. */
  ghost predicate Silent(s: State, r: State, n: nat) {
    && (OneChunk(s.rec) || WithinPiece(s.rec, n) ==>
          && r.o == s.o && r.rec.asked == s.rec.asked
          && (r.rec.resendRange == s.rec.resendRange || r.rec.resendRange.None?))
    && (WithinPiece(s.rec, n) ==> r.rec.resendRange == s.rec.resendRange)
  }

  /** When nothing stashed is due, settling changes neither the incoming side nor the stash. */
  lemma {:induction false} SettleIsQuiet(c: Config, s: State)
    requires StashKeyed(s.rec.stash) && s.i.nextTarget !in s.rec.stash
    ensures var r := Settle(c, s);
            r.link == s.link && r.i == s.i && r.rec.stash == s.rec.stash && r.clock == s.clock && Silent(s, r, s.i.nextTarget)
  {
    hide SendResendRequest;
    var s1 := s.(rec := s.rec.(lastWasQueued := false));
    ChunkFrame(c, s1);
  }

  /** The events are the arrival of exactly these messages, at whatever times, each passing the checks. */
  ghost predicate Arrivals(c: Config, es: seq<Timed>, ms: seq<Msg>) {
    && |es| == |ms|
    && forall j | 0 <= j < |es| ::
         && es[j].event.Receive? && es[j].event.frame.Parsed?
         && es[j].event.frame.inbound.msg == ms[j]
         && Passes(c, es[j].event.frame.inbound.checks)
  }

  ghost predicate ReadyFor(s: State, lo: nat, hi: nat) {
    && s.link.connected && s.link.receivedLogon && s.i.nextTarget == lo
    && StashKeyed(s.rec.stash) && (forall k | k in s.rec.stash :: k >= hi)
  }

  /** The state in which the session handles a message. */
  function Clocked(s: State, e: Timed): State { s.(clock := s.clock.(now := e.now, utc := e.utc)) }

  lemma TilesPrefix(ms: seq<Msg>, lo: nat, hi: nat)
    requires Tiles(ms, lo, hi) && ms != []
    ensures var last := ms[|ms| - 1];
            IsTile(last) && First(last) < After(last) == hi && Tiles(ms[..|ms| - 1], lo, First(last))
  {
  }

  /** Everything but the last settling, message by message. */
  lemma {:induction false} ReceiveTiles(c: Config, s: State, es: seq<Timed>, ms: seq<Msg>, lo: nat, hi: nat)
    requires Arrivals(c, es, ms) && Tiles(ms, lo, hi) && (forall j | 0 <= j < |ms| :: Receivable(ms[j]))
    requires ReadyFor(s, lo, hi) && hi !in s.rec.stash
    ensures var r := Run(c, s, es);
            && r.link == s.link && r.rec.stash == s.rec.stash && r.i.nextTarget == hi
            && r.i.delivered == s.i.delivered + Deliveries(ms) && Silent(s, r, hi)
    decreases |ms|, 1
  {
    hide Settle, Process, Tiles;
    if ms == [] {
      assert lo == hi by { TilesOfNothing(lo, hi); }
    } else {
      var mid := LastTile(c, s, es, ms, lo, hi);
      SettleIsQuiet(c, mid);
    }
  }

  lemma TilesOfNothing(lo: nat, hi: nat)
    requires Tiles([], lo, hi)
    ensures lo == hi
  {
  }

  /** A whole answer leads to a state `mid` that has consumed the range and delivered its application
      messages, and from which the receiver then settles: replays what is stashed behind the range. */
  lemma {:induction false} LastTile(c: Config, s: State, es: seq<Timed>, ms: seq<Msg>, lo: nat, hi: nat) returns (mid: State)
    requires Arrivals(c, es, ms) && Tiles(ms, lo, hi) && ms != [] && (forall j | 0 <= j < |ms| :: Receivable(ms[j]))
    requires ReadyFor(s, lo, hi)
    ensures StashKeyed(mid.rec.stash) && Run(c, s, es) == Settle(c, mid)
    ensures mid.link == s.link && mid.rec.stash == s.rec.stash && mid.i.nextTarget == hi
    ensures mid.i.delivered == s.i.delivered + Deliveries(ms) && hi > 0 && Silent(s, mid, hi - 1)
    decreases |ms|, 0
  {
    hide Settle, Process, Tiles;
    var last := |ms| - 1;
    TilesPrefix(ms, lo, hi);
    ReceiveTiles(c, s, es[..last], ms[..last], lo, First(ms[last]));
    var r := Clocked(Run(c, s, es[..last]), es[last]);
    var f := es[last].event.frame.inbound;
    ReceiveTile(c, r, f);
    mid := Process(c, r, f).s;
  }

  // ----- both sessions together -----

  lemma {:induction false} DeliveriesOfOriginals(ms: seq<Msg>)
    requires forall j | 0 <= j < |ms| :: IsTile(ms[j])
    ensures forall j | 0 <= j < |Originals(ms)| :: IsTile(Originals(ms)[j])
    ensures Deliveries(ms) == Deliveries(Originals(ms))
  {
    if ms != [] {
      var last := |ms| - 1;
      DeliveriesOfOriginals(ms[..last]);
      assert ms == ms[..last] + [ms[last]];
      OriginalsOfJoin(ms[..last], [ms[last]]);
      assert ms[last].kind.SequenceReset? ==> Originals(ms) == Originals(ms[..last]);
      assert !ms[last].kind.SequenceReset? ==> Originals(ms)[..|Originals(ms)| - 1] == Originals(ms[..last]);
    }
  }

  function RequestedBegin(m: Msg): nat { if m.beginSeqNo.Some? then m.beginSeqNo.value else 1 }

  /** Answering a resend request puts exactly the answer on the wire and consumes no number. */
  lemma {:induction false} AnswerOnWire(c: Config, s: State, f: Inbound)
    requires f.msg.kind.ResendRequest? && Passes(c, f.checks) && s.link.connected && s.link.receivedLogon
    ensures var h := Process(c, s, f);
            var answer := ResendAnswer(c, s.o.saved, f.checks.resendVetoes, RequestedBegin(f.msg), RequestedEnd(s.o, f.msg));
            && !h.dropped
            && h.s.o == s.o.(wire := s.o.wire + answer, lastSent := h.s.o.lastSent)
            && h.s.rec == s.rec && h.s.i.delivered == s.i.delivered
  {
    hide Send, ResendAnswer, RequestedEnd;
  }

  /** What went onto the wire between two states. */
  function Transmitted(before: State, after: State): seq<Msg> {
    if |before.o.wire| <= |after.o.wire| then after.o.wire[|before.o.wire|..] else []
  }

  /** A stored message that parses again has a readable type: without a MsgType it does not parse, so
      this only excludes a MsgType that is not UTF-8. */
  ghost predicate Typed(saved: map<nat, Msg>) { forall k | k in saved && saved[k].parses :: !saved[k].kind.Untyped? }

  lemma {:induction false} ResentAreApp(saved: map<nat, Msg>, vetoes: set<nat>, next: nat, end: nat)
    requires Typed(saved)
    ensures forall j | 0 <= j < |Resent(saved, vetoes, next, end)| :: Resent(saved, vetoes, next, end)[j].kind.App?
    decreases end + 1 - next
  {
    if next <= end {
      ResentAreApp(saved, vetoes, next + 1, end);
    }
  }

  lemma {:induction false} TypedAnswer(ms: seq<Msg>)
    requires forall j | 0 <= j < |ms| :: IsTile(ms[j])
    requires forall j | 0 <= j < |Originals(ms)| :: Originals(ms)[j].kind.App?
    ensures forall j | 0 <= j < |ms| :: Receivable(ms[j])
  {
    if ms != [] {
      var rest := Originals(ms[1..]);
      assert forall j | 0 <= j < |rest| :: rest[j] == Originals(ms)[j + |Originals(ms)| - |rest|];
      TypedAnswer(ms[1..]);
      assert !ms[0].kind.SequenceReset? ==> Originals(ms)[0] == ms[0];
      assert forall j | 0 < j < |ms| :: ms[j] == ms[1..][j - 1];
    }
  }

  /** What the answer of a sound session to a request for [begin, end] is made of. */
  lemma {:induction false} AnswerIsReceivable(c: Config, o: Outgoing, vetoes: set<nat>, begin: nat, end: nat)
    requires OutgoingOk(c, o) && Typed(o.saved) && begin <= end
    ensures var ms := ResendAnswer(c, o.saved, vetoes, begin, end);
            && ms != [] && Tiles(ms, begin, end + 1) && (forall j | 0 <= j < |ms| :: Receivable(ms[j]))
            && (forall j | 0 <= j < |Sendable(c, o.saved, vetoes, begin, end)| :: IsTile(Sendable(c, o.saved, vetoes, begin, end)[j]))
            && Deliveries(ms) == Deliveries(Sendable(c, o.saved, vetoes, begin, end))
  {
    hide Replay;
    var ms := ResendAnswer(c, o.saved, vetoes, begin, end);
    AnswerTiles(c, o.saved, vetoes, begin, end);
    ResentAreApp(o.saved, vetoes, begin, end);
    TypedAnswer(ms);
    DeliveriesOfOriginals(ms);
  }

  /** The stored, parseable, non-administrative, non-vetoed messages of a range. */
  function Sendable(c: Config, saved: map<nat, Msg>, vetoes: set<nat>, begin: nat, end: nat): seq<Msg> {
    if c.persist then Resent(saved, vetoes, begin, end) else []
  }

  /** Two-session gap recovery. Session a answers a resend request for [begin, end]; everything it puts
      on the wire reaches session b, which expects `begin` and has stashed nothing in the range. Then b
      passes through a state `mid` that expects end + 1 and whose application has seen exactly the
      stored, parseable, non-administrative, non-vetoed messages of the range, once each and in order;
      from there b only replays what it had stashed behind the range. */
  lemma {:induction false} TwoSessionRecovery(ca: Config, a: State, f: Inbound, cb: Config, b: State, es: seq<Timed>)
    returns (mid: State)
    requires OutgoingOk(ca, a.o) && Typed(a.o.saved) && a.link.connected && a.link.receivedLogon
    requires f.msg.kind.ResendRequest? && Passes(ca, f.checks)
    requires RequestedBegin(f.msg) <= RequestedEnd(a.o, f.msg)
    requires Arrivals(cb, es, Transmitted(a, Process(ca, a, f).s))
    requires ReadyFor(b, RequestedBegin(f.msg), RequestedEnd(a.o, f.msg) + 1)
    ensures var (begin, end) := (RequestedBegin(f.msg), RequestedEnd(a.o, f.msg));
            var messages := Sendable(ca, a.o.saved, f.checks.resendVetoes, begin, end);
            && StashKeyed(mid.rec.stash) && Run(cb, b, es) == Settle(cb, mid)
            && mid.i.nextTarget == end + 1 && mid.rec.stash == b.rec.stash && mid.link == b.link
            && (forall j | 0 <= j < |messages| :: IsTile(messages[j]))
            && mid.i.delivered == b.i.delivered + Deliveries(messages) && Silent(b, mid, end)
            && (end + 1 !in b.rec.stash ==> Run(cb, b, es).i == mid.i)
  {
    hide Process, Settle, Run, ResendAnswer;
    var (begin, end) := (RequestedBegin(f.msg), RequestedEnd(a.o, f.msg));
    var answer := ResendAnswer(ca, a.o.saved, f.checks.resendVetoes, begin, end);
    AnswerOnWire(ca, a, f);
    assert Transmitted(a, Process(ca, a, f).s) == answer;
    AnswerIsReceivable(ca, a.o, f.checks.resendVetoes, begin, end);
    mid := LastTile(cb, b, es, answer, begin, end + 1);
    if end + 1 !in b.rec.stash {
      SettleIsQuiet(cb, mid);
    }
  }
}

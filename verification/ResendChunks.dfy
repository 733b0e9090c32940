/**
 Chunked resend requests: with MaxMessagesInResendRequest set, a gap is requested piece by
 piece, the next piece when the current one is complete.
 */
module ResendChunks {
  import opened Messages
  import Schedules
  import opened SessionSpec
  import opened SessionInvariants

  /** The check after each inbound message ends a recovery exactly when the whole gap is filled, and
      asks for the next piece exactly when the current one is complete and the gap is not. */
  lemma CheckEndsRecoveryIff(c: Config, s: State)
    requires s.rec.resendRange.Some? && RangeOk(s.rec)
    ensures var r := CheckResendChunks(c, s);
            var range := s.rec.resendRange.value;
            && (r.rec.resendRange.None? <==> s.i.nextTarget > range.fullEnd)
            && (|r.rec.asked| > |s.rec.asked| <==> range.chunkEnd < s.i.nextTarget <= range.fullEnd)
  {
    hide Send;
  }

  /** No request was made; the outstanding range is the same or has nothing left to ask for. */
  ghost predicate AsksNothing(s: Recovery, r: Recovery) {
    && r.asked == s.asked && r.resendRange.Some?
    && (r.resendRange == s.resendRange || r.resendRange.value.chunkEnd == r.resendRange.value.fullEnd)
  }

  /** One request was made, for the piece that follows what was outstanding. */
  ghost predicate AsksNext(c: Config, s: Recovery, r: Recovery) {
    && s.resendRange.Some? && r.resendRange.Some?
    && var (last, next) := (s.resendRange.value, r.resendRange.value);
    && r.asked == s.asked + [next] && next == Chunk(c, next.begin, last.fullEnd)
    && last.chunkEnd < next.begin <= last.fullEnd
  }

  ghost predicate Recovering(s: State) { s.rec.resendRange.Some? }

  // ----- while a range is outstanding, messages cause no request -----

  lemma VerifyAsksNothing(c: Config, s: State, f: Inbound, checkHigh: bool, checkLow: bool)
    requires Recovering(s) && !c.redundantRequests
    ensures AsksNothing(s.rec, Verify(c, s, f, checkHigh, checkLow).s.rec)
  {
    hide Send, Consult, OnTargetTooLow;
    ConsultKeepsCourse(c, s, f);
    TooLowKeepsCourse(c, s, f);
  }

  lemma SequenceLogonAsksNothing(c: Config, s: State, f: Inbound)
    requires Recovering(s) && !c.redundantRequests
    ensures AsksNothing(s.rec, SequenceLogon(c, s, f).s.rec)
  {
    hide Send;
  }

  lemma {:induction false} AcceptLogonAsksNothing(c: Config, s: State, f: Inbound)
    requires Recovering(s) && !c.redundantRequests
    ensures AsksNothing(s.rec, AcceptLogon(c, s, f).s.rec)
  {
    hide Send, ResendAnswer, SequenceLogon;
    SequenceLogonAsksNothing(c, AnswerLogon(c, s.(link := s.link.(receivedLogon := true)), f.msg), f);
  }

  lemma {:induction false} HandleLogonAsksNothing(c: Config, s: State, f: Inbound)
    requires Recovering(s) && !c.redundantRequests
    ensures AsksNothing(s.rec, HandleLogon(c, s, f).s.rec)
  {
    hide Verify, AcceptLogon;
    var r := LogonResets(c, s, f.msg).s;
    VerifyAsksNothing(c, r, f, false, true);
    AcceptLogonAsksNothing(c, Verify(c, r, f, false, true).s, f);
  }

  lemma {:induction false} ProcessAsksNothing(c: Config, s: State, f: Inbound)
    requires Recovering(s) && !c.redundantRequests
    ensures AsksNothing(s.rec, Process(c, s, f).s.rec)
  {
    hide Send, Verify, ResendAnswer, HandleLogon;
    HandleLogonAsksNothing(c, s, f);
    forall hi, lo {
      VerifyAsksNothing(c, s, f, hi, lo);
    }
  }

  lemma {:induction false} DrainAsksNothing(c: Config, s: State)
    requires Recovering(s) && !c.redundantRequests && StashKeyed(s.rec.stash)
    ensures AsksNothing(s.rec, Drain(c, s).s.rec)
    decreases s.rec.stash.Keys
  {
    hide Process;
    var n: nat := s.i.nextTarget;
    if n in s.rec.stash {
      var f := s.rec.stash[n];
      var s1 := s.(rec := s.rec.(stash := s.rec.stash - {n}, lastWasQueued := true));
      if SkippedWhenQueued(f.msg) || !f.msg.parses {
        DrainAsksNothing(c, IncrTarget(s1));
      } else {
        InSequenceNeverStashes(c, s1, f);
        ProcessAsksNothing(c, s1, f);
        if !Process(c, s1, f).dropped {
          DrainAsksNothing(c, Process(c, s1, f).s);
        }
      }
    }
  }

  lemma {:induction false} SettleAsks(c: Config, s: State)
    requires Recovering(s) && !c.redundantRequests && StashKeyed(s.rec.stash) && s.link.connected
    requires Recovering(Settle(c, s))
    ensures var r := Settle(c, s); AsksNothing(s.rec, r.rec) || AsksNext(c, s.rec, r.rec)
  {
    hide Send, Drain;
    var s1 := s.(rec := s.rec.(lastWasQueued := false));
    DrainAsksNothing(c, s1);
    DrainStep(c, s1);
  }

  // ----- whole events and runs -----

  /** Nothing was asked for, and the range is the same unless it was given up. */
  ghost predicate AtMostGivesUp(s: Recovery, r: Recovery) {
    r.resendRange.None? || (r.asked == s.asked && r.resendRange == s.resendRange)
  }

  lemma DisconnectAsksNothing(c: Config, s: State)
    ensures AtMostGivesUp(s.rec, Disconnect(c, s).rec)
  {
  }

  lemma TickAsksNothing(c: Config, s: State)
    ensures AtMostGivesUp(s.rec, OnScheduleTick(c, s).rec)
  {
    hide Send, Schedules.IsInRange, ScheduledResetDue;
  }

  lemma DeadlineAsksNothing(c: Config, s: State)
    ensures AtMostGivesUp(s.rec, OnDeadline(c, s).rec)
  {
    hide Send;
  }

  lemma AttachAsksNothing(c: Config, s: State)
    ensures AtMostGivesUp(s.rec, OnAttach(c, s).rec)
  {
    hide Send, Schedules.IsInRange;
  }

  /** No event asks for more than the next piece of an outstanding range. */
  lemma {:induction false} EventAsks(c: Config, s0: State, e: Timed)
    requires Recovering(s0) && !c.redundantRequests && StashKeyed(s0.rec.stash)
    requires Recovering(Apply(c, s0, e))
    ensures var r := Apply(c, s0, e); AsksNothing(s0.rec, r.rec) || AsksNext(c, s0.rec, r.rec)
  {
    hide Send, Process, Settle, OnScheduleTick, OnDeadline, OnAttach, Disconnect;
    var s := s0.(clock := s0.clock.(now := e.now, utc := e.utc));
    TickAsksNothing(c, s);
    DeadlineAsksNothing(c, s);
    AttachAsksNothing(c, s);
    DisconnectAsksNothing(c, s);
    if e.event.Receive? && s.link.connected && e.event.frame.Parsed? {
      var f := e.event.frame.inbound;
      ProcessAsksNothing(c, s, f);
      ProcessStep(c, s, f);
      var h := Process(c, s, f);
      if h.dropped {
        DisconnectAsksNothing(c, h.s);
      } else {
        ProcessKeepsKeys(c, s, f);
        SettleAsks(c, h.s);
      }
    }
  }

  /** Requests for successive pieces of one gap ending at `full`: each begins behind the end of the
      one before, and each is as long as allowed unless the gap ends first. */
  ghost predicate Plan(c: Config, plan: seq<Range>, full: nat) {
    && (forall j | 0 <= j < |plan| :: plan[j].begin <= full && plan[j] == Chunk(c, plan[j].begin, full))
    && (forall j, k | 0 <= j && k == j + 1 && k < |plan| :: plan[j].chunkEnd < plan[k].begin)
  }

  ghost predicate Uninterrupted(c: Config, s: State, es: seq<Timed>)
    requires StashKeyed(s.rec.stash)
  {
    forall a | 0 <= a <= |es| :: Recovering(Run(c, s, es[..a]))
  }

  /** The request outstanding at the start, and those made since. */
  function Requests(s: State, r: State): seq<Range>
    requires s.rec.resendRange.Some?
  {
    [s.rec.resendRange.value] + (if |s.rec.asked| <= |r.rec.asked| then r.rec.asked[|s.rec.asked|..] else [])
  }

  lemma {:induction false} RunFollowsPlan(c: Config, s: State, es: seq<Timed>)
    requires StashKeyed(s.rec.stash) && Uninterrupted(c, s, es) && !c.redundantRequests
    requires Recovering(s) && RangeOk(s.rec)
    requires var first := s.rec.resendRange.value; first == Chunk(c, first.begin, first.fullEnd)
    ensures var r := Run(c, s, es);
            var plan := Requests(s, r);
            && Recovering(r) && s.rec.asked <= r.rec.asked
            && Plan(c, plan, s.rec.resendRange.value.fullEnd)
            && (r.rec.resendRange.value == plan[|plan| - 1]
                || r.rec.resendRange.value.chunkEnd == r.rec.resendRange.value.fullEnd)
  {
    hide Apply;
    assert es[..|es|] == es;
    if es != [] {
      var last := |es| - 1;
      var before := es[..last];
      assert Uninterrupted(c, s, before) by {
        forall a | 0 <= a <= |before| ensures Recovering(Run(c, s, before[..a])) {
          assert before[..a] == es[..a];
        }
      }
      RunFollowsPlan(c, s, before);
      var t, r := Run(c, s, before), Run(c, s, es);
      EventAsks(c, t, es[last]);
      var plan := Requests(s, t);
      if AsksNext(c, t.rec, r.rec) {
        assert Requests(s, r) == plan + [r.rec.resendRange.value];
      } else {
        assert Requests(s, r) == plan;
      }
    }
  }

  lemma {:induction false} PlanIsDense(c: Config, plan: seq<Range>, full: nat, j: nat)
    requires Plan(c, plan, full) && c.maxResend > 0 && j < |plan|
    ensures plan[0].begin + j * c.maxResend <= plan[j].begin
  {
    if j > 0 {
      PlanIsDense(c, plan, full, j - 1);
      assert plan[j - 1].chunkEnd < plan[j].begin;
    }
  }

  lemma MulLess(a: int, b: int, m: int)
    requires m > 0 && a * m < b * m
    ensures a < b
  {
    assert (b - a) * m > 0;
  }

  lemma CeilingBound(count: nat, max: nat, missing: nat)
    requires max > 0 && count >= 1 && (count - 1) * max < missing
    ensures count <= (missing + max - 1) / max
  {
    var total := missing + max - 1;
    assert total == total / max * max + total % max;
    assert (total / max + 1) * max == total / max * max + max;
    assert count * max == (count - 1) * max + max;
    MulLess(count, total / max + 1, max);
  }

  /** Chunked recovery. While a recovery lasts, the ranges requested are disjoint and ascending, lie
      inside the original gap and are never longer than the configured maximum, and a gap of n
      messages costs at most n / max requests, rounded up. */
  lemma {:induction false} ChunkedRecovery(c: Config, s: State, es: seq<Timed>)
    requires StashKeyed(s.rec.stash) && Uninterrupted(c, s, es) && !c.redundantRequests && c.maxResend > 0
    requires Recovering(s) && RangeOk(s.rec)
    requires var first := s.rec.resendRange.value; first == Chunk(c, first.begin, first.fullEnd)
    ensures var gap := s.rec.resendRange.value;
            var plan := Requests(s, Run(c, s, es));
            && (forall j | 0 <= j < |plan| ::
                  && gap.begin <= plan[j].begin <= plan[j].chunkEnd <= gap.fullEnd == plan[j].fullEnd
                  && plan[j].chunkEnd - plan[j].begin < c.maxResend)
            && (forall j, k | 0 <= j && k == j + 1 && k < |plan| :: plan[j].chunkEnd < plan[k].begin)
            && |plan| <= (gap.fullEnd - gap.begin + 1 + c.maxResend - 1) / c.maxResend
  {
    hide Run;
    RunFollowsPlan(c, s, es);
    var gap := s.rec.resendRange.value;
    var plan := Requests(s, Run(c, s, es));
    forall j | 0 <= j < |plan| ensures gap.begin <= plan[j].begin {
      PlanIsDense(c, plan, gap.fullEnd, j);
      assert j * c.maxResend >= 0;
    }
    PlanIsDense(c, plan, gap.fullEnd, |plan| - 1);
    CeilingBound(|plan|, c.maxResend, gap.fullEnd - gap.begin + 1);
  }
}

/**
 What becomes of stashed application messages: which of them the application gets to see
 when the gap before them has been filled.
 */
module StashReplay {
  import opened Messages
  import opened SessionSpec
  import opened SessionInvariants
  import opened GapRecovery

  /** Whether `n` was delivered between two states. */
  ghost predicate NewlyDelivered(s: State, r: State, n: nat) {
    exists j | |s.i.delivered| <= j < |r.i.delivered| :: r.i.delivered[j].expected == n
  }

  /** The message due next is in the stash, is an application message and passes all checks. */
  ghost predicate DueInStash(c: Config, s: State) {
    && s.link.receivedLogon && StashKeyed(s.rec.stash)
    && s.i.nextTarget in s.rec.stash
    && s.rec.stash[s.i.nextTarget].msg.kind.App? && Passes(c, s.rec.stash[s.i.nextTarget].checks)
  }

  lemma {:induction false} ReplayDelivers(c: Config, s: State, f: Inbound)
    requires f.msg.kind.App? && Passes(c, f.checks) && s.link.receivedLogon && f.msg.seqNum == Some(s.i.nextTarget as nat)
    ensures var h := Process(c, s, f);
            && !h.dropped && h.s.i.delivered == s.i.delivered + [Delivery(f.msg, s.i.nextTarget)]
            && h.s.clock == s.clock
  {
    hide Send;
  }

  /** Replay delivers a due application message if and only if its bytes parse again and the
      prefix test does not mistake it for a Logon or a ResendRequest. */
  lemma {:induction false} QueuedMessageDeliveredIff(c: Config, s: State)
    requires DueInStash(c, s)
    ensures var m := s.rec.stash[s.i.nextTarget].msg;
            NewlyDelivered(s, Drain(c, s).s, s.i.nextTarget) <==> !SkippedWhenQueued(m) && m.parses
  {
    hide Process;
    var n: nat := s.i.nextTarget;
    var f := s.rec.stash[n];
    var s1 := s.(rec := s.rec.(stash := s.rec.stash - {n}, lastWasQueued := true));
    var r := Drain(c, s).s;
    DrainKeepsCourse(c, s);
    if SkippedWhenQueued(f.msg) || !f.msg.parses {
      DrainStep(c, IncrTarget(s1));
    } else {
      InSequenceNeverStashes(c, s1, f);
      ReplayDelivers(c, s1, f);
      var h := Process(c, s1, f);
      DrainStep(c, h.s);
      assert r.i.delivered[|s.i.delivered|] == h.s.i.delivered[|s.i.delivered|];
    }
  }

  /** A number that has been passed over is never delivered in this epoch, whatever the peer resends. */
  lemma {:induction false} PassedOverStaysUndelivered(c: Config, s: State, es: seq<Timed>, n: nat)
    requires Inv(c, s) && NoOperator(es) && Run(c, s, es).clock.epoch == s.clock.epoch && n < s.i.nextTarget
    ensures !NewlyDelivered(s, Run(c, s, es), n)
  {
    hide Run, Inv;
    InOrderDelivery(c, s, es);
  }

  /** A session in the middle of a conversation, with nothing stashed and nothing asked for. */
  ghost predicate Level(c: Config, s: State) {
    && Inv(c, s) && s.link.connected && LoggedOn(s.link)
    && s.rec.stash == map[] && s.rec.resendRange.None?
  }

  /** A message `f` that passes all checks arrives. */
  ghost predicate Arrives(c: Config, e: Timed, f: Inbound) {
    e.event == Receive(Parsed(f)) && f.msg.kind.App? && Passes(c, f.checks)
  }

  /** One message too early: it waits in the stash. */
  lemma {:induction false} EarlyMessageWaits(c: Config, s: State, e: Timed, f: Inbound)
    requires Level(c, s) && Arrives(c, e, f) && f.msg.seqNum == Some(s.i.nextTarget + 1)
    ensures var r := Apply(c, s, e);
            && r.link == s.link && r.i == s.i && r.clock.epoch == s.clock.epoch
            && r.rec.stash == map[s.i.nextTarget + 1 := f.(checks := f.later)]
            && r.rec.resendRange == Some(Range(s.i.nextTarget, s.i.nextTarget, s.i.nextTarget))
  {
    hide Send, Inv;
    var q := Clocked(s, e);
    var h := Process(c, q, f);
    assert h.s.rec.stash == map[s.i.nextTarget + 1 := f.(checks := f.later)];
    assert StashKeyed(h.s.rec.stash);
  }

  /** The missing message arrives, and what waited behind it is replayed or skipped. */
  lemma {:induction false} LateMessageReleases(c: Config, s: State, e: Timed, f: Inbound)
    requires StashKeyed(s.rec.stash) && s.link.connected && LoggedOn(s.link) && s.rec.stash.Keys == {s.i.nextTarget + 1}
    requires s.rec.resendRange == Some(Range(s.i.nextTarget, s.i.nextTarget, s.i.nextTarget))
    requires Arrives(c, e, f) && f.msg.seqNum == Some(s.i.nextTarget as nat)
    requires SkippedWhenQueued(s.rec.stash[s.i.nextTarget + 1].msg)
    ensures var r := Apply(c, s, e);
            && r.i.nextTarget == s.i.nextTarget + 2 && r.clock.epoch == s.clock.epoch
            && r.i.delivered == s.i.delivered + [Delivery(f.msg, s.i.nextTarget)]
            && r.link == s.link && r.rec.stash == map[] && r.rec.resendRange.None?
  {
    hide Send;
    var q := Clocked(s, e);
    var h := Process(c, q, f);
    assert !h.dropped && h.s.rec == s.rec && h.s.i.nextTarget == s.i.nextTarget + 1;
    var d := h.s.(rec := h.s.rec.(lastWasQueued := false));
    var d1 := IncrTarget(d.(rec := d.rec.(stash := d.rec.stash - {d.i.nextTarget as nat}, lastWasQueued := true)));
    assert d1.rec.stash == map[];
    assert Drain(c, d) == Drain(c, d1) == Handled(d1, false);
  }

  /** How a message gets lost. A logged-on session with an empty stash receives first the message n + 1, of
      a type the prefix test mistakes, then the missing message n. Both pass every check. Afterwards the
      session expects n + 2, has delivered n only, and as long as the epoch lasts nothing that happens,
      resends included, brings n + 1 to the application. */
  lemma {:induction false} SkippedMessageIsLost(
    c: Config, s: State, early: Timed, f: Inbound, late: Timed, g: Inbound, es: seq<Timed>)
    requires Level(c, s)
    requires Arrives(c, early, f) && f.msg.seqNum == Some(s.i.nextTarget + 1) && SkippedWhenQueued(f.msg)
    requires Arrives(c, late, g) && g.msg.seqNum == Some(s.i.nextTarget as nat)
    requires NoOperator(es)
    ensures var r := Run(c, s, [early, late]);
            && r.i.nextTarget == s.i.nextTarget + 2 && r.i.delivered == s.i.delivered + [Delivery(g.msg, s.i.nextTarget)]
            && Level(c, r) && r.clock.epoch == s.clock.epoch
            && (Run(c, r, es).clock.epoch == s.clock.epoch ==> !NewlyDelivered(s, Run(c, r, es), s.i.nextTarget + 1))
  {
    hide Apply, Inv, NewlyDelivered, SkippedWhenQueued, Passes;
    var s1 := Apply(c, s, early);
    EarlyMessageWaits(c, s, early, f);
    var r := Apply(c, s1, late);
    StashIsKeyed(c, s);
    EventKeeps(c, s, early);
    StashIsKeyed(c, s1);
    LateMessageReleases(c, s1, late, g);
    EventKeeps(c, s1, late);
    RunTwo(c, s, early, late);
    OnlyOneDelivered(s, r, g.msg);
    if Run(c, r, es).clock.epoch == s.clock.epoch {
      NeverDeliveredLater(c, s, r, es, s.i.nextTarget + 1);
    }
  }

  lemma OnlyOneDelivered(s: State, r: State, m: Msg)
    requires r.i.delivered == s.i.delivered + [Delivery(m, s.i.nextTarget)]
    ensures !NewlyDelivered(s, r, s.i.nextTarget + 1)
  {
  }

  lemma StashIsKeyed(c: Config, s: State)
    requires Inv(c, s)
    ensures StashKeyed(s.rec.stash)
  {
  }

  lemma {:induction false} RunTwo(c: Config, s: State, a: Timed, b: Timed)
    requires StashKeyed(s.rec.stash)
    ensures StashKeyed(Apply(c, s, a).rec.stash) && Run(c, s, [a, b]) == Apply(c, Apply(c, s, a), b)
  {
    hide Apply;
    ApplyKeepsKeys(c, s, a);
    assert [a, b][..1] == [a] && [a][..0] == [];
    assert Run(c, s, []) == s;
    assert Run(c, s, [a]) == Apply(c, s, a);
  }

  /** What had not been delivered when it was passed over is not delivered afterwards. */
  lemma {:induction false} NeverDeliveredLater(c: Config, s: State, r: State, es: seq<Timed>, n: nat)
    requires Inv(c, r) && NoOperator(es) && Run(c, r, es).clock.epoch == r.clock.epoch
    requires n < r.i.nextTarget && |s.i.delivered| <= |r.i.delivered| && !NewlyDelivered(s, r, n)
    ensures !NewlyDelivered(s, Run(c, r, es), n)
  {
    hide Run, Inv;
    PassedOverStaysUndelivered(c, r, es, n);
    InOrderDelivery(c, r, es);
  }

  /** TradeCaptureReports (AE) are among the types concerned, and so is every type that starts with "A" or "2". */
  lemma SkippedTypes(m: Msg)
    requires m.kind.App? && |m.kind.code| > 0 && m.kind.code[0] in {'A', '2'}
    ensures SkippedWhenQueued(m) && !IsAdmin(m.kind)
  {
  }
}

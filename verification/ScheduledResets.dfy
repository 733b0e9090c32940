/**
 Scheduled sequence resets over whole runs of a session: at most one per occurrence of the
 session window, whatever else happens in between.
 */
module ScheduledResets {
  import opened Messages
  import opened Schedules
  import opened SessionSpec
  import opened SessionInvariants

  // ----- what events do to the store's creation time -----

  lemma {:induction false} DisconnectClock(c: Config, s: State)
    ensures ClockKept(s.clock, Disconnect(c, s).clock)
  {
  }

  lemma {:induction false} InboundClock(c: Config, s: State, frame: Frame)
    requires StashKeyed(s.rec.stash)
    ensures ClockKept(s.clock, OnInbound(c, s, frame).clock)
  {
    hide Process, Drain, Send, Disconnect;
    DisconnectClock(c, s);
    if frame.Parsed? {
      var f := frame.inbound;
      var h := Process(c, s, f);
      ProcessStep(c, s, f);
      ProcessKeepsKeys(c, s, f);
      DisconnectClock(c, h.s);
      if !h.dropped {
        var s1 := h.s.(rec := h.s.rec.(lastWasQueued := false));
        DrainStep(c, s1);
        DisconnectClock(c, Drain(c, s1).s);
      }
    }
  }

  /** An event moves the wall clock, may restamp the store, and records a scheduled reset exactly when
      a tick finds one due. */
  ghost predicate ClockStep(c: Config, s: Clock, e: Timed, r: Clock) {
    && r.utc == e.utc
    && (if e.event.ScheduleTick? && ScheduledResetDue(c, e.utc, s.created)
        then r.created == e.utc && r.scheduledResets == s.scheduledResets + [e.utc]
        else r.scheduledResets == s.scheduledResets && (r.created == s.created || r.created == e.utc))
  }

  lemma {:induction false} TickClock(c: Config, s: State)
    ensures var r := OnScheduleTick(c, s).clock;
            if ScheduledResetDue(c, s.clock.utc, s.clock.created)
            then r.created == r.utc == s.clock.utc && r.scheduledResets == s.clock.scheduledResets + [s.clock.utc]
            else ClockKept(s.clock, r)
  {
    hide Send, IsInRange, IsInSameRange, Disconnect;
    DisconnectClock(c, s);
    DisconnectClock(c, InitiateLogout(c, s));
  }

  lemma {:induction false} EventClock(c: Config, s0: State, e: Timed)
    requires StashKeyed(s0.rec.stash)
    ensures ClockStep(c, s0.clock, e, Apply(c, s0, e).clock)
  {
    hide Send, OnInbound, Disconnect, OnScheduleTick, IsInRange, IsInSameRange;
    var s := s0.(clock := s0.clock.(now := e.now, utc := e.utc));
    InboundClock(c, s, if e.event.Receive? then e.event.frame else Garbled(false));
    DisconnectClock(c, s);
    DisconnectClock(c, InitiateLogout(c, s));
    TickClock(c, s);
  }

  // ----- runs -----

  ghost predicate Chronological(s: State, es: seq<Timed>) {
    && (forall j | 0 <= j < |es| :: es[j].utc >= s.clock.utc)
    && (forall j, k | 0 <= j < k < |es| :: es[j].utc <= es[k].utc)
  }

  /** A schedule whose window is a family of occurrences. */
  predicate HasOccurrences(s: Schedule) { Valid(s) && !s.nonStop && !FoldedWeek(s) }

  /** What two scheduled resets in one occurrence would have to be: the window is overnight, and the later
      one falls on the closing second. */
  ghost predicate OnlyOnClosing(s: Schedule, earlier: int, later: int)
    requires HasOccurrences(s)
  {
    SameOccurrence(WindowOf(s), later, earlier) ==> Overnight(s) && ClosingSecond(s, later) && earlier < later
  }

  /** Scheduled resets happened inside the window, no two in one occurrence but for the closing second of an
      overnight window, and none after the store was last stamped. */
  ghost predicate ResetsOk(c: Config, k: Clock)
    requires HasOccurrences(c.schedule)
  {
    && k.created <= k.utc
    && (forall j | 0 <= j < |k.scheduledResets| ::
          IsInRange(c.schedule, k.scheduledResets[j]) && k.scheduledResets[j] <= k.created)
    && (forall i, j | 0 <= i < j < |k.scheduledResets| ::
          OnlyOnClosing(c.schedule, k.scheduledResets[i], k.scheduledResets[j]))
  }

  /** Looking back within one occurrence is right, except from the closing second of an overnight one. */
  lemma LooksBackWithin(s: Schedule, now: int, created: int, earlier: int)
    requires HasOccurrences(s) && earlier <= created <= now && SameOccurrence(WindowOf(s), now, earlier)
    requires !IsInSameRange(s, now, created)
    ensures Overnight(s) && ClosingSecond(s, now) && earlier < now
  {
    var w := WindowOf(s);
    var k: int :| InOccurrence(w, k, now) && InOccurrence(w, k, earlier);
    assert InOccurrence(w, k, created);
    RangeIsUnionOfOccurrences(s, now);
    RangeIsUnionOfOccurrences(s, created);
    if Overnight(s) {
      if created < now {
        OvernightLooksBack(s, now, created);
      }
    } else {
      SameRangeIsSameOccurrence(s, now, created);
    }
  }

  lemma StepKeepsResets(c: Config, s: Clock, e: Timed, r: Clock)
    requires HasOccurrences(c.schedule) && ResetsOk(c, s) && ClockStep(c, s, e, r) && s.utc <= e.utc
    ensures ResetsOk(c, r)
  {
    hide IsInRange, IsInSameRange, SameOccurrence, ClosingSecond, WindowOf, Valid, FoldedWeek;
    if e.event.ScheduleTick? && ScheduledResetDue(c, e.utc, s.created) {
      forall j | 0 <= j < |s.scheduledResets|
        ensures OnlyOnClosing(c.schedule, s.scheduledResets[j], e.utc)
      {
        if SameOccurrence(WindowOf(c.schedule), e.utc, s.scheduledResets[j]) {
          LooksBackWithin(c.schedule, e.utc, s.created, s.scheduledResets[j]);
        }
      }
    }
  }

  /** One scheduled reset per occurrence. Over any run in which wall clock time does not go backwards, no
      two scheduled resets fall into the same occurrence of the window, whatever other resets, logons
      and reconnects happen in between. Overnight windows allow one exception, a further reset on
      the closing second. */
  lemma {:induction false} OneResetPerOccurrence(c: Config, s: State, es: seq<Timed>)
    requires StashKeyed(s.rec.stash) && HasOccurrences(c.schedule) && Chronological(s, es) && ResetsOk(c, s.clock)
    ensures ResetsOk(c, Run(c, s, es).clock)
    ensures Run(c, s, es).clock.utc == (if es == [] then s.clock.utc else es[|es| - 1].utc)
  {
    hide Apply, ResetsOk, HasOccurrences;
    if es != [] {
      var last := |es| - 1;
      OneResetPerOccurrence(c, s, es[..last]);
      var t := Run(c, s, es[..last]);
      EventClock(c, t, es[last]);
      StepKeepsResets(c, t.clock, es[last], Run(c, s, es).clock);
    }
  }

  /** Scheduled resets happen at ticks and nowhere else. */
  lemma {:induction false} ResetsAreTicks(c: Config, s: State, es: seq<Timed>, t: int)
    requires StashKeyed(s.rec.stash) && t in Run(c, s, es).clock.scheduledResets
    ensures t in s.clock.scheduledResets || exists j | 0 <= j < |es| :: es[j].event.ScheduleTick? && es[j].utc == t
  {
    hide Apply;
    if es != [] {
      var last := |es| - 1;
      EventClock(c, Run(c, s, es[..last]), es[last]);
      if t in Run(c, s, es[..last]).clock.scheduledResets {
        ResetsAreTicks(c, s, es[..last], t);
      }
    }
  }

  /** Without that exception: if no tick falls on the closing second of an overnight window, every
      occurrence of every window sees at most one scheduled reset. */
  lemma {:induction false} StrictlyOneReset(c: Config, s: State, es: seq<Timed>)
    requires StashKeyed(s.rec.stash) && HasOccurrences(c.schedule) && Chronological(s, es) && ResetsOk(c, s.clock)
    requires s.clock.scheduledResets == []
    requires Overnight(c.schedule) ==> forall j | 0 <= j < |es| && es[j].event.ScheduleTick? :: !ClosingSecond(c.schedule, es[j].utc)
    ensures var resets := Run(c, s, es).clock.scheduledResets;
            forall i, j | 0 <= i < j < |resets| :: !SameOccurrence(WindowOf(c.schedule), resets[j], resets[i])
  {
    hide Run, IsInRange, SameOccurrence, WindowOf, ClosingSecond, Valid, FoldedWeek;
    OneResetPerOccurrence(c, s, es);
    var resets := Run(c, s, es).clock.scheduledResets;
    forall i, j | 0 <= i < j < |resets| ensures !SameOccurrence(WindowOf(c.schedule), resets[j], resets[i]) {
      assert OnlyOnClosing(c.schedule, resets[i], resets[j]);
      ResetsAreTicks(c, s, es, resets[j]);
    }
  }

  /** After any tick inside the window the store belongs to the current occurrence, so a tick that follows
      at the same instant resets nothing. This holds for every schedule. */
  lemma {:induction false} TickAlignsStore(c: Config, s: State, e: Timed)
    requires StashKeyed(s.rec.stash) && e.event.ScheduleTick? && IsInRange(c.schedule, e.utc)
    ensures IsInSameRange(c.schedule, e.utc, Apply(c, s, e).clock.created)
    ensures !ScheduledResetDue(c, e.utc, Apply(c, s, e).clock.created)
  {
    hide Apply;
    EventClock(c, s, e);
  }

  /** Overnight windows miss this by one second: a session that was stamped earlier in the night
      resets again when a tick falls on the closing second, and only then. */
  lemma OvernightResetDueIff(c: Config, now: int, created: int)
    requires Valid(c.schedule) && !c.schedule.nonStop && Overnight(c.schedule)
    requires IsInRange(c.schedule, now) && IsInRange(c.schedule, created) && created < now
    requires SameOccurrence(WindowOf(c.schedule), now, created)
    ensures ScheduledResetDue(c, now, created) <==> ClosingSecond(c.schedule, now)
  {
    OvernightLooksBack(c.schedule, now, created);
  }
}

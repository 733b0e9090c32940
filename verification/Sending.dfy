/**
 From the application to the wire, and from the wire to the other application: which sends go out,
 and what a healthy connection does with them.
 */
module Sending {
  import opened Messages
  import opened SessionSpec
  import opened SessionInvariants
  import opened GapRecovery

  /** The application lets a message go; it has no say in administrative ones. */
  predicate Agreed(m: Msg, vetoed: bool) { IsAdmin(m.kind) || !vetoed }

  /** An accepted send made while connected puts exactly the newly numbered message on the wire, if and only
      if a Logon has been sent, or both Logons have been exchanged, or the message is itself a Logon,
      Logout, ResendRequest or SequenceReset. Otherwise the wire and the idle timer stay as they are. */
  lemma TransmittedIff(c: Config, s: State, m: Msg, vetoed: bool)
    ensures var r := Send(c, s, m, vetoed);
            var goes := && Agreed(m, vetoed) && s.link.connected
                        && (|| s.link.sentLogon || (s.link.receivedLogon && s.link.sentLogon)
                            || m.kind.Logon? || m.kind.Logout? || m.kind.ResendRequest? || m.kind.SequenceReset?);
            && (Agreed(m, vetoed) ==> |r.o.numbered| == |s.o.numbered| + 1)
            && r.o.wire == s.o.wire + (if goes then [r.o.numbered[|s.o.numbered|]] else [])
            && r.o.lastSent == (if goes then s.clock.now else s.o.lastSent)
  {
    assert s.o.wire + [] == s.o.wire;
  }

  /** A numbered message carries the next number and everything else as the application gave it; when
      messages are persisted it is saved, whether or not it goes out. */
  lemma NumberedAsGiven(c: Config, s: State, m: Msg, vetoed: bool)
    requires Agreed(m, vetoed)
    ensures var o := Send(c, s, m, vetoed).o;
            && o.numbered == s.o.numbered + [m.(seqNum := Some(s.o.nextSender as nat), possDup := false)]
            && o.nextSender == s.o.nextSender + 1
            && o.saved == (if c.persist then s.o.saved[s.o.nextSender as nat := o.numbered[|s.o.numbered|]] else s.o.saved)
  {
  }

  // ----- a healthy connection -----

  /** The application sends these messages, refusing some at the last moment. */
  ghost predicate AreSends(es: seq<Timed>) {
    forall j | 0 <= j < |es| :: es[j].event.SendMessage? && es[j].event.msg.kind.App?
  }

  /** Those that are sent, in order. */
  function Accepted(es: seq<Timed>): seq<Msg> {
    if es == [] then []
    else
      var (front, e) := (es[..|es| - 1], es[|es| - 1].event);
      Accepted(front) + if e.SendMessage? && !e.vetoed then [e.msg] else []
  }

  /** The messages with consecutive numbers from `first` on. */
  function NumberFrom(ms: seq<Msg>, first: nat): (r: seq<Msg>)
    ensures |r| == |ms| && forall j | 0 <= j < |ms| :: r[j] == ms[j].(seqNum := Some(first + j), possDup := false)
  {
    seq(|ms|, j requires 0 <= j < |ms| => ms[j].(seqNum := Some(first + j), possDup := false))
  }

  lemma {:induction false} AcceptedAreApp(es: seq<Timed>)
    requires AreSends(es)
    ensures forall j | 0 <= j < |Accepted(es)| :: Accepted(es)[j].kind.App?
  {
    if es != [] {
      AcceptedAreApp(es[..|es| - 1]);
    }
  }

  lemma AcceptedUnfolds(es: seq<Timed>)
    ensures es == [] ==> Accepted(es) == []
    ensures es != [] ==>
              var (front, e) := (Accepted(es[..|es| - 1]), es[|es| - 1].event);
              Accepted(es) == if e.SendMessage? && !e.vetoed then front + [e.msg] else front
  {
    if es != [] {
      assert Accepted(es[..|es| - 1]) + [] == Accepted(es[..|es| - 1]);
    }
  }

  lemma NumberOneMore(ms: seq<Msg>, m: Msg, first: nat)
    ensures NumberFrom(ms + [m], first) == NumberFrom(ms, first) + [m.(seqNum := Some(first + |ms|), possDup := false)]
  {
  }

  lemma OneSend(c: Config, s: State, e: Timed)
    requires StashKeyed(s.rec.stash) && s.link.connected && s.link.sentLogon && e.event.SendMessage? && e.event.msg.kind.App?
    ensures var r := Apply(c, s, e);
            var m := e.event.msg.(seqNum := Some(s.o.nextSender as nat), possDup := false);
            && r.link == s.link && r.i == s.i && r.rec == s.rec
            && (if e.event.vetoed then r.o == s.o else r.o.wire == s.o.wire + [m] && r.o.nextSender == s.o.nextSender + 1)
  {
  }

  /** What a connected, logged-on session is told to send goes onto the wire, numbered in order. */
  lemma {:induction false} SendsGoOut(c: Config, s: State, es: seq<Timed>)
    requires StashKeyed(s.rec.stash) && s.link.connected && s.link.sentLogon && AreSends(es)
    ensures var r := Run(c, s, es);
            && r.o.wire == s.o.wire + NumberFrom(Accepted(es), s.o.nextSender)
            && r.o.nextSender == s.o.nextSender + |Accepted(es)|
            && r.link == s.link && r.i == s.i && r.rec == s.rec
  {
    hide Apply, NumberFrom, Accepted;
    AcceptedUnfolds(es);
    if es == [] {
      assert NumberFrom([], s.o.nextSender) == [];
      assert s.o.wire + [] == s.o.wire;
    } else {
      var last := |es| - 1;
      var (front, e) := (Accepted(es[..last]), es[last]);
      assert AreSends(es[..last]);
      SendsGoOut(c, s, es[..last]);
      OneSend(c, Run(c, s, es[..last]), e);
      if !e.event.vetoed {
        NumberOneMore(front, e.event.msg, s.o.nextSender);
      }
    }
  }

  lemma NumberedTiles(ms: seq<Msg>, first: nat)
    requires forall j | 0 <= j < |ms| :: ms[j].kind.App?
    ensures var r := NumberFrom(ms, first);
            && Tiles(r, first, first + |ms|) && (forall j | 0 <= j < |r| :: Receivable(r[j]))
            && NumberedAre(r, first)
  {
    hide NumberFrom;
  }

  ghost predicate NumberedAre(ms: seq<Msg>, first: nat) {
    forall j | 0 <= j < |ms| :: ms[j].kind.App? && ms[j].seqNum == Some(first + j)
  }

  /** Each message with the number it was expected under. */
  function InOrder(ms: seq<Msg>, first: nat): (r: seq<Delivery>)
    ensures |r| == |ms| && forall j | 0 <= j < |ms| :: r[j] == Delivery(ms[j], first + j)
  {
    seq(|ms|, j requires 0 <= j < |ms| => Delivery(ms[j], first + j))
  }

  lemma {:induction false} DeliveriesInOrder(ms: seq<Msg>, first: nat)
    requires (forall j | 0 <= j < |ms| :: IsTile(ms[j])) && NumberedAre(ms, first)
    ensures Deliveries(ms) == InOrder(ms, first)
  {
    if ms != [] {
      var last := |ms| - 1;
      DeliveriesInOrder(ms[..last], first);
      assert ms[last].kind.App? && First(ms[last]) == first + last;
      assert Deliveries(ms) == Deliveries(ms[..last]) + [Delivery(ms[last], first + last)];
    }
  }

  /** A healthy connection delivers. Two sessions are logged on and in sequence. Whatever one application
      sends, and does not refuse at the last moment, the other one receives, once, in order, with
      consecutive numbers and otherwise unchanged; the counters stay in step, and the receiver sends
      nothing and asks for nothing. */
  lemma {:induction false} SentIsDelivered(ca: Config, a: State, sends: seq<Timed>, cb: Config, b: State, es: seq<Timed>)
    requires StashKeyed(a.rec.stash) && a.link.connected && LoggedOn(a.link) && AreSends(sends)
    requires b.link.connected && LoggedOn(b.link) && b.rec.stash == map[] && b.rec.resendRange.None?
    requires b.i.nextTarget == a.o.nextSender
    requires Arrivals(cb, es, Transmitted(a, Run(ca, a, sends)))
    ensures var (s, r) := (Run(ca, a, sends), Run(cb, b, es));
            && r.i.delivered == b.i.delivered + InOrder(NumberFrom(Accepted(sends), a.o.nextSender), a.o.nextSender)
            && r.i.nextTarget == s.o.nextSender
            && r.o == b.o && r.rec.asked == b.rec.asked && r.rec.stash == map[] && r.rec.resendRange.None? && r.link == b.link
  {
    hide Run, Tiles, Deliveries, NumberFrom, InOrder;
    SendsGoOut(ca, a, sends);
    var ms := NumberFrom(Accepted(sends), a.o.nextSender);
    AcceptedAreApp(sends);
    NumberedTiles(Accepted(sends), a.o.nextSender);
    assert Transmitted(a, Run(ca, a, sends)) == ms;
    ReceiveTiles(cb, b, es, ms, a.o.nextSender, a.o.nextSender + |ms|);
    DeliveriesInOrder(ms, a.o.nextSender);
  }
}

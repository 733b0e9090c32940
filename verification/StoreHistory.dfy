/**
 What a store holds, told from the history of operations alone: the counters count, the last save of
 a number stands, and a reset forgets.
 */
module StoreHistory {
  import opened Messages
  import opened Bytes
  import opened Stores

  predicate SetsSender(op: Op) { op.SetSender? || op.Reset? }
  predicate SetsTarget(op: Op) { op.SetTarget? || op.Reset? }

  /** How many of these operations count up the sender number, and how many the target number. */
  function SenderIncrs(ops: seq<Op>): nat {
    if ops == [] then 0 else SenderIncrs(ops[..|ops| - 1]) + if ops[|ops| - 1].IncrSender? then 1 else 0
  }

  function TargetIncrs(ops: seq<Op>): nat {
    if ops == [] then 0 else TargetIncrs(ops[..|ops| - 1]) + if ops[|ops| - 1].IncrTarget? then 1 else 0
  }

  lemma {:induction false} PerformJoin(s: Store, a: seq<Op>, b: seq<Op>)
    ensures PerformAll(s, a + b) == PerformAll(PerformAll(s, a), b)
  {
    hide Perform;
    if b == [] {
      assert a + b == a;
    } else {
      assert (a + b)[..|a + b| - 1] == a + b[..|b| - 1];
      PerformJoin(s, a, b[..|b| - 1]);
    }
  }

  lemma {:induction false} PerformOne(s: Store, op: Op)
    ensures PerformAll(s, [op]) == Perform(s, op)
  {
    hide Perform;
    assert [op][..0] == [];
  }

  /** While nothing sets it, a counter counts. */
  lemma {:induction false} CountersCount(s: Store, ops: seq<Op>)
    ensures (forall j | 0 <= j < |ops| :: !SetsSender(ops[j])) ==> PerformAll(s, ops).nextSender == s.nextSender + SenderIncrs(ops)
    ensures (forall j | 0 <= j < |ops| :: !SetsTarget(ops[j])) ==> PerformAll(s, ops).nextTarget == s.nextTarget + TargetIncrs(ops)
  {
    if ops != [] {
      CountersCount(s, ops[..|ops| - 1]);
    }
  }

  /** The counters are what they were last set to, 1 by a reset, plus the increments since. */
  lemma {:induction false} CountersTell(s: Store, a: seq<Op>, op: Op, b: seq<Op>)
    ensures var r := PerformAll(s, a + [op] + b);
            && (SetsSender(op) && (forall j | 0 <= j < |b| :: !SetsSender(b[j])) ==>
                  r.nextSender == (if op.Reset? then 1 else op.n) + SenderIncrs(b))
            && (SetsTarget(op) && (forall j | 0 <= j < |b| :: !SetsTarget(b[j])) ==>
                  r.nextTarget == (if op.Reset? then 1 else op.n) + TargetIncrs(b))
  {
    hide PerformAll;
    PerformJoin(s, a + [op], b);
    PerformJoin(s, a, [op]);
    PerformOne(PerformAll(s, a), op);
    CountersCount(PerformAll(s, a + [op]), b);
  }

  lemma {:induction false} MessageStays(s: Store, ops: seq<Op>, n: nat)
    requires forall j | 0 <= j < |ops| :: !ops[j].Reset? && !(ops[j].Save? && ops[j].n == n)
    ensures var r := PerformAll(s, ops);
            (n in r.messages <==> n in s.messages) && (n in s.messages ==> r.messages[n] == s.messages[n]) && r.created == s.created
  {
    if ops != [] {
      MessageStays(s, ops[..|ops| - 1], n);
    }
  }

  /** The last save of a number stands until it is saved again or the store is reset; reading returns it. */
  lemma {:induction false} LastSaveStands(s: Store, a: seq<Op>, n: nat, raw: Bytes, b: seq<Op>)
    requires forall j | 0 <= j < |b| :: !b[j].Reset? && !(b[j].Save? && b[j].n == n)
    ensures var r := PerformAll(s, a + [Save(n, raw)] + b);
            n in r.messages && r.messages[n] == raw && InRange(r.messages, n, n) == [(n, raw)]
  {
    hide PerformAll;
    PerformJoin(s, a + [Save(n, raw)], b);
    PerformJoin(s, a, [Save(n, raw)]);
    PerformOne(PerformAll(s, a), Save(n, raw));
    MessageStays(PerformAll(s, a + [Save(n, raw)]), b, n);
    var m := PerformAll(s, a + [Save(n, raw)] + b).messages;
    assert InRange(m, n + 1, n) == [];
  }

  /** A reset forgets every message and stamps the store; what is not saved again stays forgotten. */
  lemma {:induction false} ResetForgets(s: Store, a: seq<Op>, now: int, b: seq<Op>, n: nat)
    requires forall j | 0 <= j < |b| :: !b[j].Reset? && !(b[j].Save? && b[j].n == n)
    ensures var r := PerformAll(s, a + [Reset(now)] + b);
            n !in r.messages && InRange(r.messages, n, n) == [] && r.created == now
  {
    hide PerformAll;
    PerformJoin(s, a + [Reset(now)], b);
    PerformJoin(s, a, [Reset(now)]);
    PerformOne(PerformAll(s, a), Reset(now));
    MessageStays(PerformAll(s, a + [Reset(now)]), b, n);
    var m := PerformAll(s, a + [Reset(now)] + b).messages;
    assert InRange(m, n + 1, n) == [];
  }

  /** Whatever reading a range returns is a saved message of the range. */
  lemma {:induction false} RangeIsSaved(m: map<nat, Bytes>, begin: nat, end: nat)
    ensures forall p | p in InRange(m, begin, end) :: begin <= p.0 <= end && p.0 in m && m[p.0] == p.1
    decreases end + 1 - begin
  {
    if begin <= end {
      RangeIsSaved(m, begin + 1, end);
    }
  }

  /** Every saved message of the range is returned. */
  lemma {:induction false} SavedIsInRange(m: map<nat, Bytes>, begin: nat, end: nat, n: nat)
    requires begin <= n <= end && n in m
    ensures (n, m[n]) in InRange(m, begin, end)
    decreases n - begin
  {
    if begin < n {
      SavedIsInRange(m, begin + 1, end, n);
    } else {
      assert InRange(m, begin, end)[0] == (n, m[n]);
    }
  }

  ghost predicate Ascends(r: seq<(nat, Bytes)>) { forall j, k | 0 <= j && k == j + 1 && k < |r| :: r[j].0 < r[k].0 }

  lemma AscendsCons(x: (nat, Bytes), rest: seq<(nat, Bytes)>)
    requires Ascends(rest) && forall p | p in rest :: x.0 < p.0
    ensures Ascends([x] + rest)
  {
    var r := [x] + rest;
    forall j, k | 0 <= j && k == j + 1 && k < |r| ensures r[j].0 < r[k].0 {
      assert r[k] == rest[k - 1] && rest[k - 1] in rest;
      assert j > 0 ==> r[j] == rest[j - 1];
    }
  }

  /** The numbers ascend, so each message is returned once. */
  lemma {:induction false} RangeAscends(m: map<nat, Bytes>, begin: nat, end: nat)
    ensures Ascends(InRange(m, begin, end))
    decreases end + 1 - begin
  {
    hide Ascends;
    if begin <= end {
      var rest := InRange(m, begin + 1, end);
      RangeAscends(m, begin + 1, end);
      RangeIsSaved(m, begin + 1, end);
      if begin in m {
        AscendsCons((begin, m[begin]), rest);
      } else {
        assert [] + rest == rest;
      }
    } else {
      assert Ascends([]) by { NothingAscends(); }
    }
  }

  lemma NothingAscends()
    ensures Ascends([])
  {
  }
}

/**
 Message stores (src/store.rs): the file store behaves like a plain map, also across reloading,
 reopening and crashes, and a bounded memory store keeps exactly the newest messages.
 */
module Stores {
  import opened Messages
  import opened Bytes
  import opened StoreFiles

  // ----- what a store is for: two counters, a creation time, and a map -----

  datatype Store = Store(nextSender: nat, nextTarget: nat, created: int, messages: map<nat, Bytes>)

  datatype Op =
    | Save(n: nat, raw: Bytes)
    | IncrSender
    | IncrTarget
    | SetSender(n: nat)
    | SetTarget(n: nat)
    | Get(begin: nat, end: nat)
    | Reset(now: int)
    | Refresh(now: int)
    | Reopen(now: int)

  function Perform(s: Store, op: Op): Store {
    match op
    case Save(n, raw) => s.(messages := s.messages[n := raw])
    case IncrSender => s.(nextSender := s.nextSender + 1)
    case IncrTarget => s.(nextTarget := s.nextTarget + 1)
    case SetSender(n) => s.(nextSender := n)
    case SetTarget(n) => s.(nextTarget := n)
    case Get(_, _) => s
    case Reset(now) => Store(1, 1, now, map[])
    case Refresh(_) => s
    case Reopen(_) => s
  }

  /** The messages of [begin, end], ascending. */
  function InRange(messages: map<nat, Bytes>, begin: nat, end: nat): seq<(nat, Bytes)>
    decreases end + 1 - begin
  {
    if begin > end then []
    else (if begin in messages then [(begin, messages[begin])] else []) + InRange(messages, begin + 1, end)
  }

  function PerformAll(s: Store, ops: seq<Op>): Store {
    if ops == [] then s else Perform(PerformAll(s, ops[..|ops| - 1]), ops[|ops| - 1])
  }

  /** What the Get operations of a sequence answer, in order, from a store of limited or unlimited capacity. */
  function Answers(s: Store, ops: seq<Op>, capacity: Option<nat>): seq<seq<(nat, Bytes)>> {
    if ops == [] then []
    else
      var last := |ops| - 1;
      Answers(s, ops[..last], capacity)
      + (if ops[last].Get? then [InRange(Kept(PerformAll(s, ops[..last]).messages, capacity), ops[last].begin, ops[last].end)] else [])
  }

  /** Reading on from `n`, behind what has been read already. */
  lemma {:induction false} ReadsOn(out: seq<(nat, Bytes)>, all: map<nat, Bytes>, n: nat, end: nat)
    requires n <= end + 1
    ensures out + InRange(all, n, end) ==
            if n > end then out
            else if n in all then out + [(n, all[n])] + InRange(all, n + 1, end)
            else out + InRange(all, n + 1, end)
  {
  }

  // ----- bounded memory -----

  function Above(keys: set<nat>, k: nat): set<nat> { set j | j in keys && j > k }

  /** The map restricted to its `cap` highest keys: those with fewer than `cap` keys above them. */
  function Highest(m: map<nat, Bytes>, cap: nat): map<nat, Bytes> {
    map k | k in m && |Above(m.Keys, k)| < cap :: m[k]
  }

  /** What a store of this capacity keeps of its messages. */
  function Kept(m: map<nat, Bytes>, capacity: Option<nat>): map<nat, Bytes> {
    if capacity.Some? then Highest(m, capacity.value) else m
  }

  ghost predicate IsLowest(keys: set<nat>, k: nat) { k in keys && forall j | j in keys :: k <= j }

  lemma {:induction false} LowestExists(keys: set<nat>) returns (k: nat)
    requires keys != {}
    ensures IsLowest(keys, k)
    decreases |keys|
  {
    k :| k in keys;
    if keys != {k} {
      var j := LowestExists(keys - {k});
      assert keys == (keys - {k}) + {k};
      if j < k {
        k := j;
      }
    }
  }

  /** Small maps are kept whole. */
  lemma HighestOfSmall(m: map<nat, Bytes>, cap: nat)
    requires |m| <= cap
    ensures Highest(m, cap) == m
  {
    forall k | k in m ensures |Above(m.Keys, k)| < cap {
      assert Above(m.Keys, k) <= m.Keys - {k};
      SubsetIsSmaller(Above(m.Keys, k), m.Keys - {k});
    }
  }

  lemma {:induction false} SubsetIsSmaller(a: set<nat>, b: set<nat>)
    requires a <= b
    ensures |a| <= |b|
    decreases |a|
  {
    if a != {} {
      var x :| x in a;
      SubsetIsSmaller(a - {x}, b - {x});
    }
  }

  /** Dropping the lowest key of an oversized map does not change which keys are highest. */
  lemma DropLowest(m: map<nat, Bytes>, cap: nat, low: nat)
    requires |m| > cap && IsLowest(m.Keys, low)
    ensures Highest(m - {low}, cap) == Highest(m, cap)
  {
    var rest := m - {low};
    assert Above(m.Keys, low) == m.Keys - {low};
    forall k | k in rest ensures Above(rest.Keys, k) == Above(m.Keys, k) {
    }
  }

  lemma InsertKeys(m: map<nat, Bytes>, n: nat, raw: Bytes)
    ensures m[n := raw].Keys == m.Keys + {n} && |m[n := raw]| == if n in m then |m| else |m| + 1
  {
    var big := m[n := raw];
    assert big.Keys == m.Keys + {n};
    if n in m {
      assert m.Keys + {n} == m.Keys;
    }
  }

  lemma InsertAfterDrop(m: map<nat, Bytes>, low: nat, n: nat, raw: Bytes)
    requires low in m
    ensures |m - {low}| == |m| - 1
    ensures (m - {low})[n := raw] == if n == low then m[n := raw] else m[n := raw] - {low}
  {
    assert (m - {low}).Keys == m.Keys - {low};
  }

  /** The lowest key of an oversized map does not matter to an insertion either. */
  lemma InsertWithoutLowest(m: map<nat, Bytes>, cap: nat, low: nat, n: nat, raw: Bytes)
    requires |m| > cap && IsLowest(m.Keys, low)
    ensures Highest((m - {low})[n := raw], cap) == Highest(m[n := raw], cap)
  {
    hide Highest;
    InsertAfterDrop(m, low, n, raw);
    InsertKeys(m, n, raw);
    if low < n {
      DropLowest(m[n := raw], cap, low);
    } else if n < low {
      InsertedLowestIsDropped(m, cap, n, raw);
      InsertedLowestIsDropped(m - {low}, cap, n, raw);
      DropLowest(m, cap, low);
    }
  }

  /** A full map has no room for a key below all of its own. */
  lemma InsertedLowestIsDropped(m: map<nat, Bytes>, cap: nat, n: nat, raw: Bytes)
    requires |m| >= cap && n !in m && forall k | k in m :: n < k
    ensures Highest(m[n := raw], cap) == Highest(m, cap)
  {
    hide Highest;
    var big := m[n := raw];
    assert big.Keys == m.Keys + {n} && |big.Keys| == |m.Keys| + 1;
    DropLowest(big, cap, n);
    assert big - {n} == m;
  }

  /** Trimming before or after an insertion makes no difference. */
  lemma {:induction false} HighestAbsorbs(m: map<nat, Bytes>, cap: nat, n: nat, raw: Bytes)
    ensures Highest(Highest(m, cap)[n := raw], cap) == Highest(m[n := raw], cap)
    decreases |m|
  {
    hide Highest;
    if |m| <= cap {
      HighestOfSmall(m, cap);
    } else {
      var low := LowestExists(m.Keys);
      DropLowest(m, cap, low);
      HighestAbsorbs(m - {low}, cap, n, raw);
      InsertWithoutLowest(m, cap, low, n, raw);
    }
  }

  class MemoryStore {
    var nextSender: nat
    var nextTarget: nat
    var created: int
    var messages: map<nat, Bytes>
    const capacity: Option<nat>

    constructor (capacity: Option<nat>, now: int)
      ensures nextSender == 1 && nextTarget == 1 && created == now && messages == map[] && this.capacity == capacity
    {
      nextSender, nextTarget, created, messages := 1, 1, now, map[];
      this.capacity := capacity;
    }

    /** Drop the oldest messages until no more than the capacity are left. */
    method Trim()
      modifies this`messages
      ensures messages == Kept(old(messages), capacity)
    {
      if capacity.Some? {
        var cap := capacity.value;
        while |messages| > cap
          invariant Highest(messages, cap) == Highest(old(messages), cap)
          decreases |messages|
        {
          ghost var low := LowestExists(messages.Keys);
          var oldest :| oldest in messages && forall j | j in messages :: oldest <= j;
          DropLowest(messages, cap, oldest);
          messages := messages - {oldest};
        }
        HighestOfSmall(messages, cap);
      }
    }

    method SaveMessage(n: nat, raw: Bytes)
      modifies this`messages
      ensures messages == Kept(old(messages)[n := raw], capacity)
    {
      messages := messages[n := raw];
      Trim();
    }

    method GetMessages(begin: nat, end: nat) returns (out: seq<(nat, Bytes)>)
      requires begin <= end
      ensures out == InRange(messages, begin, end)
    {
      hide InRange;
      out := [];
      assert [] + InRange(messages, begin, end) == InRange(messages, begin, end);
      for n := begin to end + 1
        invariant out + InRange(messages, n, end) == InRange(messages, begin, end)
      {
        ReadsOn(out, messages, n, end);
        if n in messages {
          out := out + [(n, messages[n])];
        }
      }
      ReadsOn(out, messages, end + 1, end);
    }

    /** The store as the reference sees it, when the reference keeps every message. */
    ghost predicate Holds(s: Store)
      reads this
    {
      && nextSender == s.nextSender && nextTarget == s.nextTarget && created == s.created
      && messages == Kept(s.messages, capacity)
    }

    /** Whatever is done to it, a bounded store equals the unbounded one restricted to its highest keys. */
    method Do(op: Op, ghost s: Store) returns (answer: seq<(nat, Bytes)>)
      requires Holds(s) && (op.Get? ==> op.begin <= op.end)
      modifies this
      ensures Holds(Perform(s, op))
      ensures op.Get? ==> answer == InRange(Kept(s.messages, capacity), op.begin, op.end)
    {
      hide InRange, Highest;
      answer := [];
      match op {
        case Save(n, raw) =>
          if capacity.Some? {
            HighestAbsorbs(s.messages, capacity.value, n, raw);
          }
          SaveMessage(n, raw);
        case IncrSender => nextSender := nextSender + 1;
        case IncrTarget => nextTarget := nextTarget + 1;
        case SetSender(n) => nextSender := n;
        case SetTarget(n) => nextTarget := n;
        case Get(begin, end) => answer := GetMessages(begin, end);
        case Reset(now) =>
          nextSender, nextTarget, created, messages := 1, 1, now, map[];
          KeepsNothing(capacity);
        case Refresh(_) =>
        case Reopen(_) =>
      }
    }

    /** Over every sequence of operations the answers are those of the reference, as far as the
        capacity reaches. */
    method DoAll(ops: seq<Op>, ghost s: Store) returns (answers: seq<seq<(nat, Bytes)>>)
      requires Holds(s) && forall k | 0 <= k < |ops| && ops[k].Get? :: ops[k].begin <= ops[k].end
      modifies this
      ensures Holds(PerformAll(s, ops)) && answers == Answers(s, ops, capacity)
    {
      hide Holds, Perform, InRange, Kept;
      answers := [];
      assert ops[..0] == [];
      for k := 0 to |ops|
        invariant Holds(PerformAll(s, ops[..k])) && answers == Answers(s, ops[..k], capacity)
      {
        assert ops[..k + 1][..k] == ops[..k];
        var answer := Do(ops[k], PerformAll(s, ops[..k]));
        if ops[k].Get? {
          answers := answers + [answer];
        }
      }
      assert ops[..|ops|] == ops;
    }
  }

  lemma KeepsNothing(capacity: Option<nat>)
    ensures Kept(map[], capacity) == map[]
  {
  }

  // ----- files -----

  /** The messages an index points to. */
  function Contents(body: Bytes, index: map<nat, Entry>): map<nat, Bytes>
    requires InBounds(body, index)
  {
    map n | n in index :: body[index[n].offset..index[n].offset + index[n].length]
  }

  ghost predicate InBounds(body: Bytes, index: map<nat, Entry>) {
    forall n | n in index :: index[n].offset + index[n].length <= |body|
  }

  /** Files that load, whose index is made of whole lines inside the body, and whose counters are
      absent or exactly one line. */
  ghost predicate Consistent(d: Disk) {
    && LoadIndex(d.header, map[]).Some? && WholeLines(d.header) && InBounds(d.body, LoadIndex(d.header, map[]).value)
    && (|d.seqnums| == 0 || |d.seqnums| == 43) && !LoadCounters(d.seqnums).Corrupt?
  }

  /** The store that consistent files hold. */
  ghost function OnDisk(d: Disk, now: int): Store
    requires Consistent(d)
  {
    var l := Load(d, now).value;
    Store(l.nextSender, l.nextTarget, l.created, Contents(d.body, l.index))
  }

  // the atomic writes

  function AppendBody(d: Disk, raw: Bytes): Disk { d.(body := d.body + raw) }
  function AppendIndex(d: Disk, n: nat, e: Entry): Disk { d.(header := d.header + IndexLine(n, e)) }
  function WriteCounters(d: Disk, sender: nat, target: nat): Disk {
    d.(seqnums := Overwrite(d.seqnums, SeqnumsLine(sender, target)))
  }

  lemma ContentsGrow(body: Bytes, raw: Bytes, index: map<nat, Entry>)
    requires InBounds(body, index)
    ensures InBounds(body + raw, index) && Contents(body + raw, index) == Contents(body, index)
  {
    forall n | n in index
      ensures (body + raw)[index[n].offset..index[n].offset + index[n].length]
              == body[index[n].offset..index[n].offset + index[n].length]
    {
    }
  }

  lemma ContentsInsert(body: Bytes, index: map<nat, Entry>, n: nat, e: Entry)
    requires InBounds(body, index) && e.offset + e.length <= |body|
    ensures InBounds(body, index[n := e])
    ensures Contents(body, index[n := e]) == Contents(body, index)[n := body[e.offset..e.offset + e.length]]
  {
  }

  /** Bytes appended to the body disturb nothing. */
  lemma AppendBodyKeeps(d: Disk, raw: Bytes, now: int)
    requires Consistent(d)
    ensures Consistent(AppendBody(d, raw)) && OnDisk(AppendBody(d, raw), now) == OnDisk(d, now)
  {
    hide LoadIndex, LoadCounters;
    var index := LoadIndex(d.header, map[]).value;
    ContentsGrow(d.body, raw, index);
  }

  /** Once its index line is written, a message is readable. */
  lemma AppendIndexSaves(d: Disk, n: nat, raw: Bytes, now: int)
    requires Consistent(d) && n < U64 && |d.body| + |raw| < U64
    ensures var e := AppendIndex(AppendBody(d, raw), n, Entry(|d.body|, |raw|));
            Consistent(e) && OnDisk(e, now) == Perform(OnDisk(d, now), Save(n, raw))
  {
    hide LoadIndex, LoadCounters, IndexLine, Contents;
    var index := LoadIndex(d.header, map[]).value;
    var entry := Entry(|d.body|, |raw|);
    AppendLine(d.header, map[], n, entry);
    assert (d.body + raw)[|d.body|..|d.body| + |raw|] == raw;
    ContentsGrow(d.body, raw, index);
    ContentsInsert(d.body + raw, index, n, entry);
  }

  /** The fixed-width counters line replaces its predecessor completely. */
  lemma WriteCountersSets(d: Disk, sender: nat, target: nat, now: int)
    requires Consistent(d) && sender < U64 && target < U64
    ensures var e := WriteCounters(d, sender, target);
            && Consistent(e) && e.seqnums == SeqnumsLine(sender, target)
            && OnDisk(e, now) == OnDisk(d, now).(nextSender := sender, nextTarget := target)
  {
    hide LoadIndex, LoadCounters, SeqnumsLine;
    CountersReadBack(sender, target);
    assert SeqnumsLine(sender, target) + [] == SeqnumsLine(sender, target);
  }

  /** Crash safety. However far save_message_and_incr got, reopening finds either the store as it was, or
      the message saved but its number not yet used, or the finished operation. No message saved
      before is lost, and the new one is readable whenever its number counts as used. */
  lemma CrashDuringSave(d: Disk, n: nat, raw: Bytes, now: int)
    requires Consistent(d) && n < U64 && |d.body| + |raw| < U64 && OnDisk(d, now).nextSender + 1 < U64
    requires OnDisk(d, now).nextTarget < U64
    ensures var s := OnDisk(d, now);
            var d1 := AppendBody(d, raw);
            var d2 := AppendIndex(d1, n, Entry(|d.body|, |raw|));
            var d3 := WriteCounters(d2, s.nextSender + 1, s.nextTarget);
            && Consistent(d1) && OnDisk(d1, now) == s
            && Consistent(d2) && OnDisk(d2, now) == Perform(s, Save(n, raw))
            && Consistent(d3) && OnDisk(d3, now) == Perform(Perform(s, Save(n, raw)), IncrSender)
  {
    hide Consistent, OnDisk;
    AppendBodyKeeps(d, raw, now);
    AppendIndexSaves(d, n, raw, now);
    var s := OnDisk(d, now);
    WriteCountersSets(AppendIndex(AppendBody(d, raw), n, Entry(|d.body|, |raw|)), s.nextSender + 1, s.nextTarget, now);
  }

  /** Counters stay within 64 bits and the body within its addressable size. */
  ghost predicate Fits(s: Store, bodySize: nat, op: Op) {
    match op
    case Save(n, raw) => n < U64 && bodySize + |raw| < U64
    case IncrSender => s.nextSender + 1 < U64
    case IncrTarget => s.nextTarget + 1 < U64
    case SetSender(n) => n < U64
    case SetTarget(n) => n < U64
    case Get(begin, end) => begin <= end
    case _ => true
  }

  function BodySize(size: nat, op: Op): nat {
    if op.Save? then size + |op.raw| else if op.Reset? then 0 else size
  }

  function BodySizeAfter(size: nat, ops: seq<Op>): nat {
    if ops == [] then size else BodySize(BodySizeAfter(size, ops[..|ops| - 1]), ops[|ops| - 1])
  }

  ghost predicate AllFit(s: Store, size: nat, ops: seq<Op>) {
    forall k | 0 <= k < |ops| :: Fits(PerformAll(s, ops[..k]), BodySizeAfter(size, ops[..k]), ops[k])
  }

  class FileStore {
    var disk: Disk
    var nextSender: nat
    var nextTarget: nat
    var created: int
    var bodyLength: nat
    var index: map<nat, Entry>

    /** What is in memory is what loading the files would give. */
    ghost predicate Valid()
      reads this
    {
      && Consistent(disk) && disk.session == Some(created) && bodyLength == |disk.body|
      && nextSender < U64 && nextTarget < U64
      && Load(disk, created) == Some(Loaded(nextSender, nextTarget, created, index))
    }

    ghost function View(): Store
      reads this
      requires Valid()
    {
      OnDisk(disk, created)
    }

    /** Open the files in a directory, writing the creation time if there is none. */
    constructor (files: Disk, now: int)
      requires Consistent(files) && OnDisk(files, now).nextSender < U64 && OnDisk(files, now).nextTarget < U64
      ensures Valid() && View() == OnDisk(files, now)
      ensures disk == files.(session := Some(created))
    {
      var l := Load(files, now).value;
      nextSender, nextTarget, created, index := l.nextSender, l.nextTarget, l.created, l.index;
      disk := files.(session := Some(l.created));
      bodyLength := |files.body|;
    }

    method WriteSeqnums()
      requires Consistent(disk) && disk.session == Some(created) && bodyLength == |disk.body|
      requires nextSender < U64 && nextTarget < U64 && LoadIndex(disk.header, map[]) == Some(index)
      modifies this`disk
      ensures Valid() && disk.header == old(disk.header) && disk.body == old(disk.body)
      ensures View() == OnDisk(old(disk), created).(nextSender := nextSender, nextTarget := nextTarget)
    {
      hide LoadIndex, LoadCounters;
      WriteCountersSets(disk, nextSender, nextTarget, created);
      disk := WriteCounters(disk, nextSender, nextTarget);
    }

    method SaveMessage(n: nat, raw: Bytes)
      requires Valid() && n < U64 && |disk.body| + |raw| < U64
      modifies this
      ensures Valid() && View() == Perform(old(View()), Save(n, raw))
      ensures created == old(created) && |disk.body| == old(|disk.body|) + |raw|
    {
      hide LoadIndex, LoadCounters, IndexLine;
      AppendIndexSaves(disk, n, raw, created);
      AppendLine(disk.header, map[], n, Entry(bodyLength, |raw|));
      var offset := bodyLength;
      disk := AppendBody(disk, raw);
      bodyLength := bodyLength + |raw|;
      disk := AppendIndex(disk, n, Entry(offset, |raw|));
      index := index[n := Entry(offset, |raw|)];
    }

    lemma IndexReads()
      requires Valid()
      ensures forall n :: n in View().messages <==> n in index
      ensures forall n | n in index ::
                && index[n].offset + index[n].length <= |disk.body|
                && View().messages[n] == disk.body[index[n].offset..index[n].offset + index[n].length]
    {
      hide LoadIndex, LoadCounters;
    }

    /** Read a range of messages through the index. */
    method GetMessages(begin: nat, end: nat) returns (out: seq<(nat, Bytes)>)
      requires Valid() && begin <= end
      ensures out == InRange(View().messages, begin, end)
    {
      hide LoadIndex, LoadCounters, InRange, Contents, Consistent;
      out := [];
      ghost var all := View().messages;
      IndexReads();
      assert [] + InRange(all, begin, end) == InRange(all, begin, end);
      for n := begin to end + 1
        invariant out + InRange(all, n, end) == InRange(all, begin, end)
      {
        ReadsOn(out, all, n, end);
        if n in index {
          out := out + [(n, disk.body[index[n].offset..index[n].offset + index[n].length])];
        }
      }
      ReadsOn(out, all, end + 1, end);
    }

    /** Forget the cache and load everything again: nothing observable changes. */
    method Reload(now: int)
      requires Valid()
      modifies this
      ensures Valid() && View() == old(View()) && disk == old(disk)
    {
      hide LoadIndex, LoadCounters;
      var l := Load(disk, now).value;
      nextSender, nextTarget, created, index := l.nextSender, l.nextTarget, l.created, l.index;
      bodyLength := |disk.body|;
    }

    method ResetAll(now: int)
      requires Valid()
      modifies this
      ensures Valid() && View() == Store(1, 1, now, map[]) && disk.body == []
    {
      nextSender, nextTarget, created := 1, 1, now;
      index, bodyLength := map[], 0;
      disk := Disk([], [], [], Some(now));
      EmptyFiles(now);
      WriteSeqnums();
    }

    /** One operation, as a plain map would do it. Opening the same files again is another object with the
        same contents, which Reload stands for. */
    method Do(op: Op) returns (answer: seq<(nat, Bytes)>)
      requires Valid() && Fits(View(), |disk.body|, op)
      modifies this
      ensures Valid() && View() == Perform(old(View()), op) && |disk.body| == BodySize(old(|disk.body|), op)
      ensures op.Get? ==> answer == InRange(old(View()).messages, op.begin, op.end)
    {
      hide LoadIndex, LoadCounters, Contents;
      answer := [];
      match op {
        case Save(n, raw) => SaveMessage(n, raw);
        case IncrSender =>
          nextSender := nextSender + 1;
          WriteSeqnums();
        case IncrTarget =>
          nextTarget := nextTarget + 1;
          WriteSeqnums();
        case SetSender(n) =>
          nextSender := n;
          WriteSeqnums();
        case SetTarget(n) =>
          nextTarget := n;
          WriteSeqnums();
        case Get(begin, end) => answer := GetMessages(begin, end);
        case Reset(now) => ResetAll(now);
        case Refresh(now) => Reload(now);
        case Reopen(now) => Reload(now);
      }
    }

    /** Refinement: over every sequence of operations, the file store answers every query like the plain
        map, and ends up holding what the map holds. */
    method DoAll(ops: seq<Op>) returns (answers: seq<seq<(nat, Bytes)>>)
      requires Valid() && AllFit(View(), |disk.body|, ops)
      modifies this
      ensures Valid() && View() == PerformAll(old(View()), ops) && answers == Answers(old(View()), ops, None)
    {
      hide Valid, View, Fits, Perform, BodySize, InRange;
      answers := [];
      ghost var s, size := View(), |disk.body|;
      assert ops[..0] == [];
      for k := 0 to |ops|
        invariant Valid() && View() == PerformAll(s, ops[..k]) && |disk.body| == BodySizeAfter(size, ops[..k])
        invariant answers == Answers(s, ops[..k], None)
      {
        assert ops[..k + 1][..k] == ops[..k];
        var answer := Do(ops[k]);
        if ops[k].Get? {
          answers := answers + [answer];
        }
      }
      assert ops[..|ops|] == ops;
    }
  }

  /** Observational equality: a file store and an unbounded memory store that agree give the same answers to
      every sequence of operations, and agree afterwards. */
  method DoBoth(file: FileStore, memory: MemoryStore, ops: seq<Op>) returns (fromFile: seq<seq<(nat, Bytes)>>, fromMemory: seq<seq<(nat, Bytes)>>)
    requires file.Valid() && AllFit(file.View(), |file.disk.body|, ops)
    requires memory.capacity.None? && memory.Holds(file.View())
    modifies file, memory
    ensures fromFile == fromMemory
    ensures file.Valid() && memory.Holds(file.View())
  {
    hide Answers, PerformAll, InRange;
    ghost var s := file.View();
    forall k | 0 <= k < |ops| && ops[k].Get? ensures ops[k].begin <= ops[k].end {
      assert Fits(PerformAll(s, ops[..k]), BodySizeAfter(|file.disk.body|, ops[..k]), ops[k]);
    }
    fromMemory := memory.DoAll(ops, s);
    fromFile := file.DoAll(ops);
  }

  lemma EmptyFiles(now: int)
    ensures var d := Disk([], [], [], Some(now)); Consistent(d) && OnDisk(d, now) == Store(1, 1, now, map[])
    ensures LoadIndex([], map[]) == Some(map[])
  {
  }
}

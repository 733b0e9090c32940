/**
 Repeating groups and the canonical order of a message body (src/field_map.rs,
 src/datadictionary.rs): canonicalisation moves segments around without changing what the
 groups mean, and groups read back as they were written.
 */
module FieldGroups {
  import opened Messages
  import opened Bytes
  import opened Codec

  // ----- field maps -----

  /** Replace the first occurrence of a tag, or append. */
  function SetRaw(fs: seq<Field>, tag: int, value: Bytes): seq<Field> {
    if fs == [] then [Field(tag, value)]
    else if fs[0].tag == tag then [Field(tag, value)] + fs[1..]
    else [fs[0]] + SetRaw(fs[1..], tag, value)
  }

  function Flatten(groups: seq<seq<Field>>): seq<Field> {
    if groups == [] then [] else groups[0] + Flatten(groups[1..])
  }

  lemma {:induction false} FlattenJoin(a: seq<seq<Field>>, b: seq<seq<Field>>)
    ensures Flatten(a + b) == Flatten(a) + Flatten(b)
  {
    if a == [] {
      assert a + b == b;
    } else {
      assert (a + b)[1..] == a[1..] + b;
      FlattenJoin(a[1..], b);
    }
  }

  // ----- repeating groups -----

  /** A group's counter and its member tags; the first member starts every instance. */
  datatype Template = Template(counter: int, members: seq<int>)

  predicate ValidTemplate(t: Template) { t.members != [] }

  function Delimiter(t: Template): int requires ValidTemplate(t) { t.members[0] }

  const COUNT_LIMIT: nat := 0x1_0000_0000_0000_0000

  function WriteGroups(fs: seq<Field>, t: Template, groups: seq<seq<Field>>): seq<Field> {
    SetRaw(fs, t.counter, Decimal(|groups|)) + Flatten(groups)
  }

  /** Split fields into instances at every delimiter, up to the first tag that is not a member. */
  function Collect(fs: seq<Field>, t: Template, groups: seq<seq<Field>>): seq<seq<Field>>
    requires ValidTemplate(t)
    decreases |fs|
  {
    if fs == [] then groups
    else if fs[0].tag == Delimiter(t) then Collect(fs[1..], t, groups + [[fs[0]]])
    else if groups == [] || fs[0].tag !in t.members then groups
    else
      var last := |groups| - 1;
      Collect(fs[1..], t, groups[last := groups[last] + [fs[0]]])
  }

  datatype GroupResult = Groups(groups: seq<seq<Field>>) | InvalidCount

  function FirstAt(fs: seq<Field>, tag: int): (r: Option<nat>)
    ensures r.Some? ==> r.value < |fs| && fs[r.value].tag == tag && forall j | 0 <= j < r.value :: fs[j].tag != tag
    ensures r.None? ==> forall j | 0 <= j < |fs| :: fs[j].tag != tag
  {
    if fs == [] then None
    else if fs[0].tag == tag then Some(0)
    else
      match FirstAt(fs[1..], tag)
      case None => None
      case Some(j) => Some(j + 1)
  }

  /** The groups a counter field declares, given the fields behind it. */
  function GroupsBehind(count: Bytes, behind: seq<Field>, t: Template): GroupResult
    requires ValidTemplate(t)
  {
    var declared := ParseUnsigned(count, COUNT_LIMIT);
    var groups := Collect(behind, t, []);
    if declared.None? || |groups| != declared.value then InvalidCount else Groups(groups)
  }

  function ReadGroups(fs: seq<Field>, t: Template): GroupResult
    requires ValidTemplate(t)
  {
    match FirstAt(fs, t.counter)
    case None => Groups([])
    case Some(i) => GroupsBehind(fs[i].value, fs[i + 1..], t)
  }

  /** An instance starts with the delimiter, which does not occur again, and holds members only. */
  ghost predicate IsInstance(g: seq<Field>, t: Template)
    requires ValidTemplate(t)
  {
    && g != [] && g[0].tag == Delimiter(t)
    && forall j | 1 <= j < |g| :: g[j].tag in t.members && g[j].tag != Delimiter(t)
  }

  lemma {:induction false} CollectMembers(g: seq<Field>, rest: seq<Field>, t: Template, groups: seq<seq<Field>>)
    requires ValidTemplate(t) && groups != [] && forall j | 0 <= j < |g| :: g[j].tag in t.members && g[j].tag != Delimiter(t)
    ensures var last := |groups| - 1;
            Collect(g + rest, t, groups) == Collect(rest, t, groups[last := groups[last] + g])
    decreases |g|
  {
    var last := |groups| - 1;
    if g == [] {
      assert g + rest == rest;
      assert groups[last] + g == groups[last];
      assert groups[last := groups[last]] == groups;
    } else {
      assert (g + rest)[0] == g[0] && (g + rest)[1..] == g[1..] + rest;
      var next := groups[last := groups[last] + [g[0]]];
      CollectMembers(g[1..], rest, t, next);
      assert groups[last] + [g[0]] + g[1..] == groups[last] + g;
      assert next[last := next[last] + g[1..]] == groups[last := groups[last] + g];
    }
  }

  lemma {:induction false} CollectInstance(g: seq<Field>, rest: seq<Field>, t: Template, done: seq<seq<Field>>)
    requires ValidTemplate(t) && IsInstance(g, t)
    ensures Collect(g + rest, t, done) == Collect(rest, t, done + [g])
  {
    var begun := done + [[g[0]]];
    assert (g + rest)[0] == g[0] && (g + rest)[1..] == g[1..] + rest;
    CollectMembers(g[1..], rest, t, begun);
    assert [g[0]] + g[1..] == g;
    assert begun[|done| := g] == done + [g];
  }

  lemma {:induction false} CollectInstances(groups: seq<seq<Field>>, t: Template, done: seq<seq<Field>>)
    requires ValidTemplate(t) && forall g | g in groups :: IsInstance(g, t)
    ensures Collect(Flatten(groups), t, done) == done + groups
    decreases |groups|
  {
    if groups == [] {
      assert done + groups == done;
    } else {
      var g := groups[0];
      assert g in groups && IsInstance(g, t);
      CollectInstance(g, Flatten(groups[1..]), t, done);
      CollectInstances(groups[1..], t, done + [g]);
      assert done + [g] + groups[1..] == done + groups;
    }
  }

  lemma {:induction false} SetRawAppends(fs: seq<Field>, tag: int, value: Bytes)
    requires forall f | f in fs :: f.tag != tag
    ensures SetRaw(fs, tag, value) == fs + [Field(tag, value)]
  {
    if fs != [] {
      SetRawAppends(fs[1..], tag, value);
      assert [fs[0]] + (fs[1..] + [Field(tag, value)]) == fs + [Field(tag, value)];
    }
  }

  lemma FirstAtIs(a: seq<Field>, f: Field, b: seq<Field>)
    requires forall g | g in a :: g.tag != f.tag
    ensures FirstAt(a + [f] + b, f.tag) == Some(|a|)
  {
    var all := a + [f] + b;
    assert all[|a|] == f;
    assert forall j | 0 <= j < |a| :: all[j] == a[j];
    var r := FirstAt(all, f.tag);
    assert r.Some?;
  }

  /** Groups read back exactly as written, on any field map that lacks the counter. */
  lemma GroupsRoundTrip(fs: seq<Field>, t: Template, groups: seq<seq<Field>>)
    requires ValidTemplate(t) && (forall f | f in fs :: f.tag != t.counter)
    requires (forall g | g in groups :: IsInstance(g, t)) && |groups| < COUNT_LIMIT
    ensures ReadGroups(WriteGroups(fs, t, groups), t) == Groups(groups)
  {
    hide FirstAt, ParseUnsigned, Decimal, IsInstance;
    var count := Field(t.counter, Decimal(|groups|));
    SetRawAppends(fs, t.counter, count.value);
    var all := fs + [count] + Flatten(groups);
    FirstAtIs(fs, count, Flatten(groups));
    assert all[|fs|] == count && all[|fs| + 1..] == Flatten(groups);
    CollectInstances(groups, t, []);
    assert [] + groups == groups;
    ParseDecimal(|groups|, COUNT_LIMIT);
  }

  /** Only the members directly behind the counter matter. */
  lemma {:induction false} CollectStops(block: seq<Field>, rest: seq<Field>, t: Template, groups: seq<seq<Field>>)
    requires ValidTemplate(t) && (rest != [] ==> rest[0].tag !in t.members)
    ensures Collect(block + rest, t, groups) == Collect(block, t, groups)
    decreases |block|
  {
    if block == [] {
      assert block + rest == rest;
      assert rest != [] ==> rest[0].tag != Delimiter(t);
    } else {
      assert (block + rest)[0] == block[0] && (block + rest)[1..] == block[1..] + rest;
      if block[0].tag == Delimiter(t) {
        CollectStops(block[1..], rest, t, groups + [[block[0]]]);
      } else if groups != [] && block[0].tag in t.members {
        var last := |groups| - 1;
        CollectStops(block[1..], rest, t, groups[last := groups[last] + [block[0]]]);
      }
    }
  }

  lemma ReadsOnlyBlock(front: seq<Field>, f: Field, block: seq<Field>, rest: seq<Field>, t: Template)
    requires ValidTemplate(t) && f.tag == t.counter && (forall g | g in front :: g.tag != f.tag)
    requires rest != [] ==> rest[0].tag !in t.members
    ensures ReadGroups(front + ([f] + block) + rest, t) == GroupsBehind(f.value, block, t)
  {
    hide FirstAt, Collect, ParseUnsigned;
    var all := front + ([f] + block) + rest;
    assert all == front + [f] + (block + rest);
    FirstAtIs(front, f, block + rest);
    assert all[|front|] == f && all[|front| + 1..] == block + rest;
    CollectStops(block, rest, t, []);
  }

  // ----- what a group reads as, whatever was written -----

  /** The fields behind a counter up to the first that is no member; none if they do not begin with the
      delimiter. */
  function MemberRun(fs: seq<Field>, t: Template): (r: seq<Field>)
    requires ValidTemplate(t)
  {
    if fs == [] || fs[0].tag != Delimiter(t) then [] else Members(fs, t)
  }

  function Members(fs: seq<Field>, t: Template): (r: seq<Field>)
    ensures r <= fs && (forall j | 0 <= j < |r| :: r[j].tag in t.members) && (|r| < |fs| ==> fs[|r|].tag !in t.members)
  {
    if fs == [] || fs[0].tag !in t.members then [] else [fs[0]] + Members(fs[1..], t)
  }

  function Delimiters(fs: seq<Field>, t: Template): nat
    requires ValidTemplate(t)
  {
    if fs == [] then 0 else (if fs[0].tag == Delimiter(t) then 1 else 0) + Delimiters(fs[1..], t)
  }

  lemma {:induction false} FlattenLast(groups: seq<seq<Field>>, f: Field)
    requires groups != []
    ensures Flatten(groups[|groups| - 1 := groups[|groups| - 1] + [f]]) == Flatten(groups) + [f]
  {
    var last := |groups| - 1;
    var (front, g) := (groups[..last], groups[last]);
    assert groups == front + [g] && groups[last := g + [f]] == front + [g + [f]];
    FlattenJoin(front, [g]);
    FlattenJoin(front, [g + [f]]);
    FlattenOne(g);
    FlattenOne(g + [f]);
  }

  ghost predicate AreInstances(groups: seq<seq<Field>>, t: Template)
    requires ValidTemplate(t)
  {
    forall j | 0 <= j < |groups| :: IsInstance(groups[j], t)
  }

  /** Collecting splits the members at the delimiters and loses nothing. */
  lemma {:induction false} CollectSplits(fs: seq<Field>, t: Template, groups: seq<seq<Field>>)
    requires ValidTemplate(t) && AreInstances(groups, t)
    requires groups != [] || fs == [] || fs[0].tag == Delimiter(t)
    ensures var r := Collect(fs, t, groups);
            && AreInstances(r, t) && Flatten(r) == Flatten(groups) + Members(fs, t)
            && |r| == |groups| + Delimiters(Members(fs, t), t)
    decreases |fs|
  {
    hide Flatten, AreInstances, IsInstance, Members, Delimiters;
    MembersUnfold(fs, t);
    if fs != [] && fs[0].tag in t.members {
      var (f, rest) := (fs[0], Members(fs[1..], t));
      if f.tag == Delimiter(t) {
        NewInstance(groups, f, t);
        CollectSplits(fs[1..], t, groups + [[f]]);
      } else {
        LongerInstance(groups, f, t);
        var last := |groups| - 1;
        CollectSplits(fs[1..], t, groups[last := groups[last] + [f]]);
      }
      assert Flatten(groups) + [f] + rest == Flatten(groups) + ([f] + rest);
    } else {
      assert Flatten(groups) + [] == Flatten(groups);
    }
  }

  lemma MembersUnfold(fs: seq<Field>, t: Template)
    requires ValidTemplate(t)
    ensures var r := Members(fs, t);
            if fs != [] && fs[0].tag in t.members then
              && r == [fs[0]] + Members(fs[1..], t)
              && Delimiters(r, t) == (if fs[0].tag == Delimiter(t) then 1 else 0) + Delimiters(Members(fs[1..], t), t)
            else r == [] && Delimiters(r, t) == 0
  {
    if fs != [] && fs[0].tag in t.members {
      assert ([fs[0]] + Members(fs[1..], t))[1..] == Members(fs[1..], t);
    }
  }

  lemma {:induction false} NewInstance(groups: seq<seq<Field>>, f: Field, t: Template)
    requires ValidTemplate(t) && AreInstances(groups, t) && f.tag == Delimiter(t)
    ensures AreInstances(groups + [[f]], t) && Flatten(groups + [[f]]) == Flatten(groups) + [f]
  {
    hide Flatten;
    FlattenJoin(groups, [[f]]);
    FlattenOne([f]);
  }

  lemma {:induction false} LongerInstance(groups: seq<seq<Field>>, f: Field, t: Template)
    requires ValidTemplate(t) && AreInstances(groups, t) && groups != [] && f.tag in t.members && f.tag != Delimiter(t)
    ensures var last := |groups| - 1;
            var longer := groups[last := groups[last] + [f]];
            AreInstances(longer, t) && Flatten(longer) == Flatten(groups) + [f]
  {
    hide Flatten;
    FlattenLast(groups, f);
    assert IsInstance(groups[|groups| - 1], t);
  }

  /** What reading a group amounts to, on any fields. Without the counter there are no groups. With it, the
      count is invalid exactly if it is no number or differs from the number of delimiters in the run
      of members behind the first counter; otherwise the groups are that run, split in front of every
      delimiter. */
  lemma {:induction false} ReadsIff(fs: seq<Field>, t: Template)
    requires ValidTemplate(t)
    ensures var at := FirstAt(fs, t.counter);
            var r := ReadGroups(fs, t);
            if at.None? then r == Groups([])
            else
              var run := MemberRun(fs[at.value + 1..], t);
              && (r == InvalidCount <==> ParseUnsigned(fs[at.value].value, COUNT_LIMIT) != Some(Delimiters(run, t)))
              && (r.Groups? ==> AreInstances(r.groups, t) && Flatten(r.groups) == run)
  {
    hide ParseUnsigned, FirstAt, Collect, AreInstances, Delimiters, Flatten, MemberRun;
    var at := FirstAt(fs, t.counter);
    if at.Some? {
      CollectIsRun(fs[at.value + 1..], t);
    }
  }

  lemma {:induction false} CollectIsRun(behind: seq<Field>, t: Template)
    requires ValidTemplate(t)
    ensures var (r, run) := (Collect(behind, t, []), MemberRun(behind, t));
            AreInstances(r, t) && Flatten(r) == run && |r| == Delimiters(run, t)
  {
    hide Collect, AreInstances, Delimiters, Flatten, Members;
    NothingCollected(behind, t);
    if behind == [] || behind[0].tag == Delimiter(t) {
      CollectSplits(behind, t, []);
      assert [] + Members(behind, t) == Members(behind, t);
    }
  }

  lemma {:induction false} NothingCollected(fs: seq<Field>, t: Template)
    requires ValidTemplate(t)
    ensures Flatten([]) == [] && AreInstances([], t) && Delimiters([], t) == 0
    ensures fs == [] ==> Members(fs, t) == []
    ensures fs != [] && fs[0].tag != Delimiter(t) ==> Collect(fs, t, []) == []
  {
  }

  lemma FlattenOne(s: seq<Field>)
    ensures Flatten([s]) == s
  {
    assert Flatten([s][1..]) == [];
  }

  // ----- canonical order -----

  /** Per counter of a top-level group, every tag that may occur inside the group. */
  type GroupTags = map<int, set<int>>

  /** How many leading fields belong to a group. */
  function RunLength(fs: seq<Field>, tags: set<int>): (n: nat)
    ensures n <= |fs| && (forall j | 0 <= j < n :: fs[j].tag in tags) && (n < |fs| ==> fs[n].tag !in tags)
  {
    if fs == [] || fs[0].tag !in tags then 0 else 1 + RunLength(fs[1..], tags)
  }

  /** The fields that travel with the first one: the block of its group, if it is a counter. */
  function BlockLength(fs: seq<Field>, defs: GroupTags): (n: nat)
    requires fs != []
    ensures 1 <= n <= |fs|
  {
    if fs[0].tag in defs then 1 + RunLength(fs[1..], defs[fs[0].tag]) else 1
  }

  function Segments(fs: seq<Field>, defs: GroupTags): seq<seq<Field>>
    decreases |fs|
  {
    if fs == [] then []
    else var n := BlockLength(fs, defs); [fs[..n]] + Segments(fs[n..], defs)
  }

  ghost predicate NoneEmpty(ss: seq<seq<Field>>) { forall j | 0 <= j < |ss| :: ss[j] != [] }

  /** Insert a segment before the first one whose head is not smaller. */
  function InsertSegment(s: seq<Field>, ss: seq<seq<Field>>): seq<seq<Field>>
    requires s != [] && forall j | 0 <= j < |ss| :: ss[j] != []
  {
    if ss == [] || s[0].tag <= ss[0][0].tag then [s] + ss else [ss[0]] + InsertSegment(s, ss[1..])
  }

  function SortSegments(ss: seq<seq<Field>>): (r: seq<seq<Field>>)
    requires forall j | 0 <= j < |ss| :: ss[j] != []
    ensures forall j | 0 <= j < |r| :: r[j] != []
  {
    if ss == [] then []
    else
      var rest := SortSegments(ss[1..]);
      InsertKeepsNonEmpty(ss[0], rest);
      InsertSegment(ss[0], rest)
  }

  lemma {:induction false} InsertKeepsNonEmpty(s: seq<Field>, ss: seq<seq<Field>>)
    requires s != [] && NoneEmpty(ss)
    ensures NoneEmpty(InsertSegment(s, ss))
  {
    if ss != [] && s[0].tag > ss[0][0].tag {
      InsertKeepsNonEmpty(s, ss[1..]);
    }
  }

  lemma {:induction false} SegmentsNonEmpty(fs: seq<Field>, defs: GroupTags)
    ensures NoneEmpty(Segments(fs, defs)) && Flatten(Segments(fs, defs)) == fs
    decreases |fs|
  {
    if fs != [] {
      var n := BlockLength(fs, defs);
      SegmentsNonEmpty(fs[n..], defs);
      assert Segments(fs, defs)[1..] == Segments(fs[n..], defs);
      assert fs[..n] + fs[n..] == fs;
    }
  }

  /** Segments in ascending order of their heads. */
  function Ordered(fs: seq<Field>, defs: GroupTags): seq<seq<Field>> {
    SegmentsNonEmpty(fs, defs);
    SortSegments(Segments(fs, defs))
  }

  /** The canonical body; without a definition of the message type nothing is moved. */
  function Canonicalize(fs: seq<Field>, defs: Option<GroupTags>): seq<Field> {
    if defs.None? then fs else Flatten(Ordered(fs, defs.value))
  }

  ghost predicate Ascending(ss: seq<seq<Field>>) {
    NoneEmpty(ss) && forall j, k | 0 <= j && k == j + 1 && k < |ss| :: ss[j][0].tag <= ss[k][0].tag
  }

  lemma {:induction false} InsertAscends(s: seq<Field>, ss: seq<seq<Field>>)
    requires s != [] && Ascending(ss)
    ensures var r := InsertSegment(s, ss);
            Ascending(r) && r[0] == (if ss == [] || s[0].tag <= ss[0][0].tag then s else ss[0])
  {
    if ss != [] && s[0].tag > ss[0][0].tag {
      InsertAscends(s, ss[1..]);
    }
  }

  lemma {:induction false} InsertPermutes(s: seq<Field>, ss: seq<seq<Field>>)
    requires s != [] && NoneEmpty(ss)
    ensures multiset(InsertSegment(s, ss)) == multiset([s]) + multiset(ss)
  {
    if ss != [] && s[0].tag > ss[0][0].tag {
      InsertPermutes(s, ss[1..]);
      assert ss == [ss[0]] + ss[1..];
    }
  }

  lemma {:induction false} SortAscends(ss: seq<seq<Field>>)
    requires NoneEmpty(ss)
    ensures Ascending(SortSegments(ss))
  {
    hide InsertSegment;
    if ss != [] {
      SortAscends(ss[1..]);
      InsertAscends(ss[0], SortSegments(ss[1..]));
    }
  }

  lemma {:induction false} SortPermutes(ss: seq<seq<Field>>)
    requires NoneEmpty(ss)
    ensures multiset(SortSegments(ss)) == multiset(ss)
  {
    hide InsertSegment;
    if ss != [] {
      SortPermutes(ss[1..]);
      InsertPermutes(ss[0], SortSegments(ss[1..]));
      assert ss == [ss[0]] + ss[1..];
    }
  }

  lemma {:induction false} SortKeepsAscending(ss: seq<seq<Field>>)
    requires Ascending(ss)
    ensures SortSegments(ss) == ss
  {
    if ss != [] {
      SortKeepsAscending(ss[1..]);
      assert ss == [ss[0]] + ss[1..];
    }
  }

  lemma {:induction false} InsertPermutesFields(s: seq<Field>, ss: seq<seq<Field>>)
    requires s != [] && NoneEmpty(ss)
    ensures multiset(Flatten(InsertSegment(s, ss))) == multiset(s) + multiset(Flatten(ss))
  {
    if ss == [] || s[0].tag <= ss[0][0].tag {
      assert ([s] + ss)[1..] == ss;
    } else {
      InsertPermutesFields(s, ss[1..]);
      var r := InsertSegment(s, ss[1..]);
      assert ([ss[0]] + r)[1..] == r;
    }
  }

  lemma {:induction false} SortPermutesFields(ss: seq<seq<Field>>)
    requires NoneEmpty(ss)
    ensures multiset(Flatten(SortSegments(ss))) == multiset(Flatten(ss))
  {
    if ss != [] {
      SortPermutesFields(ss[1..]);
      InsertPermutesFields(ss[0], SortSegments(ss[1..]));
    }
  }

  /** The segments whose head has a given tag, in order. */
  function HeadedBy(ss: seq<seq<Field>>, tag: int): seq<seq<Field>>
    requires forall j | 0 <= j < |ss| :: ss[j] != []
  {
    if ss == [] then []
    else if ss[0][0].tag == tag then [ss[0]] + HeadedBy(ss[1..], tag)
    else HeadedBy(ss[1..], tag)
  }

  lemma {:induction false} InsertIsStable(s: seq<Field>, ss: seq<seq<Field>>, tag: int)
    requires s != [] && NoneEmpty(ss) && NoneEmpty(InsertSegment(s, ss))
    ensures HeadedBy(InsertSegment(s, ss), tag) == (if s[0].tag == tag then [s] else []) + HeadedBy(ss, tag)
  {
    var r := InsertSegment(s, ss);
    if ss == [] || s[0].tag <= ss[0][0].tag {
      assert r[1..] == ss;
    } else {
      InsertKeepsNonEmpty(s, ss[1..]);
      InsertIsStable(s, ss[1..], tag);
      assert r[0] == ss[0] && r[1..] == InsertSegment(s, ss[1..]);
    }
  }

  /** Segments with equal heads keep their order. */
  lemma {:induction false} SortIsStable(ss: seq<seq<Field>>, tag: int)
    requires NoneEmpty(ss)
    ensures HeadedBy(SortSegments(ss), tag) == HeadedBy(ss, tag)
  {
    if ss != [] {
      var rest := SortSegments(ss[1..]);
      SortIsStable(ss[1..], tag);
      InsertKeepsNonEmpty(ss[0], rest);
      InsertIsStable(ss[0], rest, tag);
    }
  }

  /** Canonicalisation permutes the fields, moves whole segments (a group block stays behind its
      counter), leaves segment heads in ascending order and equal heads in their old order. */
  lemma {:induction false} CanonicalOrder(fs: seq<Field>, defs: GroupTags)
    ensures multiset(Canonicalize(fs, Some(defs))) == multiset(fs)
    ensures Ascending(Ordered(fs, defs)) && multiset(Ordered(fs, defs)) == multiset(Segments(fs, defs))
    ensures NoneEmpty(Segments(fs, defs)) && Flatten(Segments(fs, defs)) == fs
    ensures forall tag :: HeadedBy(Ordered(fs, defs), tag) == HeadedBy(Segments(fs, defs), tag)
  {
    SegmentsNonEmpty(fs, defs);
    forall tag ensures HeadedBy(Ordered(fs, defs), tag) == HeadedBy(Segments(fs, defs), tag) {
      SortIsStable(Segments(fs, defs), tag);
    }
    SortAscends(Segments(fs, defs));
    SortPermutes(Segments(fs, defs));
    SortPermutesFields(Segments(fs, defs));
  }

  /** A segment consists of a head and, behind a counter, of fields of its group. */
  ghost predicate IsSegment(s: seq<Field>, defs: GroupTags) {
    && s != []
    && (|s| > 1 ==> s[0].tag in defs)
    && forall j | 1 <= j < |s| :: s[0].tag in defs && s[j].tag in defs[s[0].tag]
  }

  lemma {:induction false} SegmentsAreSegments(fs: seq<Field>, defs: GroupTags)
    ensures forall s | s in Segments(fs, defs) :: IsSegment(s, defs)
    decreases |fs|
  {
    if fs != [] {
      var n := BlockLength(fs, defs);
      SegmentsAreSegments(fs[n..], defs);
      assert IsSegment(fs[..n], defs);
    }
  }

  lemma RunLengthIs(fs: seq<Field>, tags: set<int>, n: nat)
    requires n <= |fs| && (forall j | 0 <= j < n :: fs[j].tag in tags) && (n < |fs| ==> fs[n].tag !in tags)
    ensures RunLength(fs, tags) == n
  {
  }

  // ----- the operations as they run -----

  class FieldMap {
    var fields: seq<Field>

    constructor ()
      ensures fields == []
    {
      fields := [];
    }

    method Set(tag: int, value: Bytes)
      modifies this
      ensures fields == SetRaw(old(fields), tag, value)
    {
      var i := FirstAt(fields, tag);
      SetRawIs(fields, tag, value);
      match i {
        case Some(j) => fields := fields[j := Field(tag, value)];
        case None => fields := fields + [Field(tag, value)];
      }
    }

    method Push(tag: int, value: Bytes)
      modifies this
      ensures fields == old(fields) + [Field(tag, value)]
    {
      fields := fields + [Field(tag, value)];
    }

    method AppendGroups(t: Template, groups: seq<seq<Field>>)
      modifies this
      ensures fields == WriteGroups(old(fields), t, groups)
    {
      Set(t.counter, Decimal(|groups|));
      ghost var start := fields;
      assert start + Flatten(groups[..0]) == start;
      for n := 0 to |groups|
        invariant fields == start + Flatten(groups[..n])
      {
        FlattenJoin(groups[..n], [groups[n]]);
        FlattenOne(groups[n]);
        assert groups[..n + 1] == groups[..n] + [groups[n]];
        fields := fields + groups[n];
      }
      assert groups[..|groups|] == groups;
    }

    method GetGroups(t: Template) returns (r: GroupResult)
      requires ValidTemplate(t)
      ensures r == ReadGroups(fields, t)
    {
      hide ParseUnsigned, FirstAt;
      var pos := FirstAt(fields, t.counter);
      if pos.None? {
        return Groups([]);
      }
      var declared := ParseUnsigned(fields[pos.value].value, COUNT_LIMIT);
      if declared.None? {
        return InvalidCount;
      }
      var behind := fields[pos.value + 1..];
      var groups: seq<seq<Field>> := [];
      var i := 0;
      while i < |behind|
        invariant i <= |behind| && Collect(behind[i..], t, groups) == Collect(behind, t, [])
      {
        var f := behind[i];
        assert behind[i..][0] == f && behind[i..][1..] == behind[i + 1..];
        if f.tag == Delimiter(t) {
          groups := groups + [[f]];
        } else if groups == [] || f.tag !in t.members {
          break;
        } else {
          var last := |groups| - 1;
          groups := groups[last := groups[last] + [f]];
        }
        i := i + 1;
      }
      if |groups| != declared.value {
        return InvalidCount;
      }
      return Groups(groups);
    }

    /** Cut the body into segments, sort them by head, and put them back. */
    method CanonicalizeBody(defs: Option<GroupTags>)
      modifies this
      ensures fields == Canonicalize(old(fields), defs)
    {
      hide Segments, SortSegments, Flatten, RunLength, BlockLength;
      if defs.None? {
        return;
      }
      var body := fields;
      SegmentsNonEmpty(body, defs.value);
      var segments: seq<seq<Field>> := [];
      var i := 0;
      ghost var all := Segments(body, defs.value);
      assert body[0..] == body;
      while i < |body|
        invariant i <= |body| && segments + Segments(body[i..], defs.value) == all
      {
        var tag := body[i].tag;
        var start := i;
        i := i + 1;
        if tag in defs.value {
          var tags := defs.value[tag];
          while i < |body| && body[i].tag in tags
            invariant start < i <= |body| && forall j | start < j < i :: body[j].tag in tags
          {
            i := i + 1;
          }
        }
        NextSegment(body, defs.value, start, i);
        segments := segments + [body[start..i]];
      }
      NextSegment(body, defs.value, |body|, |body|);
      assert segments == all;
      fields := Flatten(SortSegments(segments));
    }
  }

  /** One turn of the segmentation loop, and its end. */
  lemma NextSegment(fs: seq<Field>, defs: GroupTags, start: nat, end: nat)
    requires start <= end <= |fs| && (start < |fs| ==> start < end)
    requires start < |fs| && fs[start].tag !in defs ==> end == start + 1
    requires start < |fs| && fs[start].tag in defs ==>
               && (forall j | start < j < end :: fs[j].tag in defs[fs[start].tag])
               && (end < |fs| ==> fs[end].tag !in defs[fs[start].tag])
    ensures Segments(fs[start..], defs) ==
            if start == |fs| then [] else [fs[start..end]] + Segments(fs[end..], defs)
  {
    hide RunLength;
    if start < |fs| {
      var s := fs[start..];
      if fs[start].tag in defs {
        RunLengthIs(s[1..], defs[fs[start].tag], end - start - 1);
      }
      assert BlockLength(s, defs) == end - start;
      assert s[..end - start] == fs[start..end] && s[end - start..] == fs[end..];
    }
  }

  lemma {:induction false} SetRawIs(fs: seq<Field>, tag: int, value: Bytes)
    ensures SetRaw(fs, tag, value) == match FirstAt(fs, tag)
                                      case Some(j) => fs[j := Field(tag, value)]
                                      case None => fs + [Field(tag, value)]
  {
    if fs != [] {
      SetRawIs(fs[1..], tag, value);
    }
  }
}

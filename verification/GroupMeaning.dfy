/**
 Canonicalisation and the meaning of repeating groups: what a group reads as before and after
 the fields of a body have been put in canonical order.
 */
module GroupMeaning {
  import opened Messages
  import opened Bytes
  import opened Codec
  import opened FieldGroups
  import opened CanonicalForms

  /** The counter occurs once, at `i`, and the tags of its group occur only in the block behind it. */
  ghost predicate Isolated(fs: seq<Field>, defs: GroupTags, c: int, i: nat) {
    && c in defs && i < |fs| && fs[i].tag == c
    && (forall j | 0 <= j < |fs| && j != i :: fs[j].tag != c)
    && (forall j | 0 <= j < |fs| && fs[j].tag in defs[c] :: i < j < i + BlockLength(fs[i..], defs))
  }

  /** The block that starts at a position. */
  function BlockAt(fs: seq<Field>, defs: GroupTags, i: nat): (r: seq<Field>)
    requires i < |fs|
    ensures 1 <= |r| <= |fs| - i
  {
    fs[i..][..BlockLength(fs[i..], defs)]
  }

  lemma TailOfTail(s: seq<Field>, n: nat, i: nat)
    requires n <= i <= |s|
    ensures s[n..][i - n..] == s[i..]
  {
  }

  // ----- the segment around a position -----

  /** Every position lies in a segment: it is its head, or a member of the group of its head. */
  lemma {:induction false} SegmentAround(fs: seq<Field>, defs: GroupTags, i: nat) returns (a: nat)
    requires i < |fs|
    ensures a <= i < a + |BlockAt(fs, defs, a)| && BlockAt(fs, defs, a) in Segments(fs, defs)
    ensures a < i ==> fs[a].tag in defs && fs[i].tag in defs[fs[a].tag]
    decreases |fs|
  {
    hide BlockLength, BlockAt;
    var n := BlockLength(fs, defs);
    FirstSegment(fs, defs);
    if i < n {
      a := 0;
      MemberOfFirst(fs, defs, i);
    } else {
      var k := SegmentAround(fs[n..], defs, i - n);
      BlockAtTail(fs, defs, n, k);
      a := n + k;
    }
  }

  lemma FirstSegment(fs: seq<Field>, defs: GroupTags)
    requires fs != []
    ensures |BlockAt(fs, defs, 0)| == BlockLength(fs, defs)
    ensures Segments(fs, defs) == [BlockAt(fs, defs, 0)] + Segments(fs[BlockLength(fs, defs)..], defs)
  {
    hide BlockLength;
    assert fs[0..] == fs;
  }

  lemma BlockAtTail(fs: seq<Field>, defs: GroupTags, n: nat, k: nat)
    requires n + k < |fs|
    ensures BlockAt(fs[n..], defs, k) == BlockAt(fs, defs, n + k)
  {
    hide BlockLength;
    TailOfTail(fs, n, n + k);
  }

  lemma MemberOfFirst(fs: seq<Field>, defs: GroupTags, i: nat)
    requires i < |fs| && i < BlockLength(fs, defs)
    ensures 0 < i ==> fs[0].tag in defs && fs[i].tag in defs[fs[0].tag]
  {
    hide RunLength;
    if 0 < i {
      assert fs[i] == fs[1..][i - 1];
    }
  }

  /** A counter that may not occur inside groups always heads a segment. */
  lemma {:induction false} HeadsItsSegment(fs: seq<Field>, defs: GroupTags, i: nat)
    requires i < |fs| && forall d | d in defs :: fs[i].tag !in defs[d]
    ensures BlockAt(fs, defs, i) in Segments(fs, defs)
  {
    hide BlockLength, Segments;
    var a := SegmentAround(fs, defs, i);
  }

  // ----- where a segment goes -----

  lemma {:induction false} SplitAtSegment(ss: seq<seq<Field>>, seg: seq<Field>) returns (before: seq<Field>, after: seq<Field>)
    requires seg in ss
    ensures Flatten(ss) == before + seg + after
  {
    hide Flatten;
    var k :| 0 <= k < |ss| && ss[k] == seg;
    before, after := Flatten(ss[..k]), Flatten(ss[k + 1..]);
    assert ss == ss[..k] + [ss[k]] + ss[k + 1..];
    FlattenJoin(ss[..k] + [ss[k]], ss[k + 1..]);
    FlattenSnoc(ss[..k], ss[k]);
  }

  /** Two ways to put fields around the same segment use the same fields. */
  lemma SameSurroundings(front: seq<Field>, rest: seq<Field>, seg: seq<Field>, before: seq<Field>, after: seq<Field>)
    requires multiset(before + seg + after) == multiset(front + seg + rest)
    ensures forall g | g in before || g in after :: g in front || g in rest
  {
    forall g | g in before || g in after ensures g in front || g in rest {
      assert multiset(before + seg + after)[g] == multiset(before)[g] + multiset(seg)[g] + multiset(after)[g];
      assert multiset(front + seg + rest)[g] == multiset(front)[g] + multiset(seg)[g] + multiset(rest)[g];
      assert g in multiset(front) || g in multiset(rest);
    }
  }

  /** A segment ends up, whole, somewhere among the same other fields. */
  lemma {:induction false} CanonicalMovesSegment(fs: seq<Field>, defs: GroupTags, a: nat)
    returns (before: seq<Field>, after: seq<Field>)
    requires a < |fs| && BlockAt(fs, defs, a) in Segments(fs, defs)
    ensures var seg := BlockAt(fs, defs, a);
            && Canonicalize(fs, Some(defs)) == before + seg + after
            && forall g | g in before || g in after :: g in fs[..a] || g in fs[a + |seg|..]
  {
    hide Segments, Ordered, Flatten, BlockLength, Ascending;
    var seg := BlockAt(fs, defs, a);
    CanonicalOrder(fs, defs);
    assert seg in multiset(Ordered(fs, defs));
    before, after := SplitAtSegment(Ordered(fs, defs), seg);
    assert fs == fs[..a] + seg + fs[a + |seg|..];
    SameSurroundings(fs[..a], fs[a + |seg|..], seg, before, after);
  }

  lemma OutsideBlock(fs: seq<Field>, defs: GroupTags, c: int, i: nat, g: Field)
    requires Isolated(fs, defs, c, i)
    requires g in fs[..i] || g in fs[i + |BlockAt(fs, defs, i)|..]
    ensures g.tag != c && g.tag !in defs[c]
  {
    hide BlockLength;
    var n := |BlockAt(fs, defs, i)|;
    if g in fs[..i] {
      var j :| 0 <= j < i && fs[j] == g;
    } else {
      var j :| 0 <= j < |fs| - i - n && fs[i + n..][j] == g;
      assert fs[i + n + j] == g;
    }
  }

  // ----- meaning preserved -----

  ghost predicate TemplateOf(t: Template, defs: GroupTags) {
    && ValidTemplate(t) && t.counter in defs
    && (forall x :: x in t.members <==> x in defs[t.counter])
  }

  /** The block at `i` lies inside the segment that starts at `a`. */
  ghost predicate Contained(fs: seq<Field>, defs: GroupTags, a: nat, i: nat)
    requires a <= i < |fs|
  {
    && BlockAt(fs, defs, a) in Segments(fs, defs)
    && i + |BlockAt(fs, defs, i)| <= a + |BlockAt(fs, defs, a)|
  }

  lemma CutSegment(fs: seq<Field>, a: nat, m: nat, i: nat, n: nat)
    requires a <= i && i + n <= a + m <= |fs| && 1 <= n
    ensures var (seg, block) := (fs[a..][..m], fs[i..][..n]);
            && seg == seg[..i - a] + block + seg[i - a + n..]
            && fs[..i] == fs[..a] + seg[..i - a] && fs[i + n..] == seg[i - a + n..] + fs[a + m..]
            && fs == fs[..i] + block + fs[i + n..] && block == [fs[i]] + block[1..]
  {
  }

  /** Canonicalisation preserves meaning: a group whose counter occurs once, whose tags occur only in its
      block, and whose block lies inside one segment reads the same before and after. The segment
      may be its own, or that of a group around it. */
  lemma {:induction false} CanonicalKeepsGroups(fs: seq<Field>, defs: GroupTags, t: Template, a: nat, i: nat)
    requires TemplateOf(t, defs) && Isolated(fs, defs, t.counter, i) && a <= i && Contained(fs, defs, a, i)
    ensures ReadGroups(Canonicalize(fs, Some(defs)), t) == ReadGroups(fs, t)
  {
    hide ReadGroups, Canonicalize, BlockLength, Segments;
    var (seg, block) := (BlockAt(fs, defs, a), BlockAt(fs, defs, i));
    var before, after := CanonicalMovesSegment(fs, defs, a);
    CutSegment(fs, a, |seg|, i, |block|);
    var (u, v) := (seg[..i - a], seg[i - a + |block|..]);
    forall g | g in fs[..i] || g in fs[i + |block|..] ensures Foreign(g, t) {
      OutsideBlock(fs, defs, t.counter, i, g);
    }
    StillForeign(fs[..a], u, v, fs[a + |seg|..], before, after, t);
    ReadsOnlyBetween(fs[..i], fs[i], block[1..], fs[i + |block|..], t);
    ReadsOnlyBetween(before + u, fs[i], block[1..], v + after, t);
    Regroup(before, u, block, v, after);
  }

  /** Neither the counter of a template nor one of its members. */
  predicate Foreign(g: Field, t: Template) { g.tag != t.counter && g.tag !in t.members }

  lemma Regroup(before: seq<Field>, u: seq<Field>, block: seq<Field>, v: seq<Field>, after: seq<Field>)
    ensures before + (u + block + v) + after == (before + u) + block + (v + after)
  {
  }

  lemma StillForeign(front: seq<Field>, u: seq<Field>, v: seq<Field>, rest: seq<Field>, before: seq<Field>, after: seq<Field>, t: Template)
    requires forall g | g in front + u || g in v + rest :: Foreign(g, t)
    requires forall g | g in before || g in after :: g in front || g in rest
    ensures forall g | g in before + u || g in v + after :: Foreign(g, t)
  {
    forall g: Field | g in before + u || g in v + after ensures Foreign(g, t) {
      assert g in front + u || g in v + rest;
    }
  }

  /** Among foreign fields, a counter and its block read as they do alone. */
  lemma ReadsOnlyBetween(front: seq<Field>, f: Field, block: seq<Field>, rest: seq<Field>, t: Template)
    requires ValidTemplate(t) && f.tag == t.counter && forall g | g in front || g in rest :: Foreign(g, t)
    ensures ReadGroups(front + ([f] + block) + rest, t) == GroupsBehind(f.value, block, t)
  {
    hide ReadGroups, GroupsBehind;
    assert rest != [] ==> Foreign(rest[0], t) by { assert rest != [] ==> rest[0] in rest; }
    ReadsOnlyBlock(front, f, block, rest, t);
  }

  // ----- for which dictionaries -----

  /** Every isolated group of this template reads the same before and after. */
  ghost predicate KeepsGroups(defs: GroupTags, t: Template)
    requires ValidTemplate(t)
  {
    forall fs: seq<Field>, i: nat | Isolated(fs, defs, t.counter, i) ::
      ReadGroups(Canonicalize(fs, Some(defs)), t) == ReadGroups(fs, t)
  }

  /** A group that may hold this counter, and is not itself a member, may hold the whole group. A group
      that lists its own counter as a member is never isolated. */
  ghost predicate HeldWhole(defs: GroupTags, c: int)
    requires c in defs
  {
    c in defs[c] || forall d, x | d in defs && c in defs[d] && d !in defs[c] && x in defs[c] :: x in defs[d]
  }

  lemma BlockEnds(fs: seq<Field>, defs: GroupTags, i: nat)
    requires i < |fs|
    ensures var n := |BlockAt(fs, defs, i)|;
            && (forall j | i < j < i + n :: fs[i].tag in defs && fs[j].tag in defs[fs[i].tag])
            && (i + n < |fs| && fs[i].tag in defs ==> fs[i + n].tag !in defs[fs[i].tag])
  {
    hide RunLength;
    var (s, n) := (fs[i..], |BlockAt(fs, defs, i)|);
    assert forall j | i < j < i + n :: fs[j] == s[1..][j - i - 1];
    assert i + n < |fs| ==> fs[i + n] == s[1..][n - 1];
  }

  /** A counter that is swallowed brings its whole block along. */
  lemma {:induction false} SwallowedWhole(fs: seq<Field>, defs: GroupTags, c: int, a: nat, i: nat)
    requires Isolated(fs, defs, c, i) && HeldWhole(defs, c)
    requires a <= i < a + |BlockAt(fs, defs, a)|
    requires a < i ==> fs[a].tag in defs && c in defs[fs[a].tag]
    ensures i + |BlockAt(fs, defs, i)| <= a + |BlockAt(fs, defs, a)|
  {
    hide BlockAt;
    BlockEnds(fs, defs, a);
    BlockEnds(fs, defs, i);
    assert fs[i].tag !in defs[c];
    if a < i {
      assert fs[a].tag !in defs[c];
    }
  }

  lemma {:induction false} HeldWholeKeeps(defs: GroupTags, t: Template, fs: seq<Field>, i: nat)
    requires TemplateOf(t, defs) && HeldWhole(defs, t.counter) && Isolated(fs, defs, t.counter, i)
    ensures ReadGroups(Canonicalize(fs, Some(defs)), t) == ReadGroups(fs, t)
  {
    hide ReadGroups, Canonicalize, BlockAt, Segments, HeldWhole;
    var a := SegmentAround(fs, defs, i);
    SwallowedWhole(fs, defs, t.counter, a, i);
    CanonicalKeepsGroups(fs, defs, t, a, i);
  }

  // ----- a body that changes its meaning -----

  /** `count` inside the group of `outer`, followed by `mid`, which that group may hold, and by `cut`,
      which it may not; then a separator and another field like `outer`. */
  function Torn(outer: Field, count: Field, mid: seq<Field>, cut: Field, z: Field): seq<Field> {
    [outer, count] + mid + [cut, z, outer]
  }

  ghost predicate Tears(defs: GroupTags, outer: Field, count: Field, mid: seq<Field>, cut: Field, z: Field) {
    && outer.tag in defs && count.tag in defs && count.tag in defs[outer.tag] && outer.tag !in defs[count.tag]
    && count.tag !in defs[count.tag] && |mid| <= 1
    && (forall j | 0 <= j < |mid| :: mid[j].tag in defs[outer.tag] && mid[j].tag in defs[count.tag])
    && cut.tag in defs[count.tag] && cut.tag !in defs[outer.tag]
    && z.tag !in defs && (forall c | c in defs :: z.tag !in defs[c])
    && cut.tag < z.tag && outer.tag < z.tag && count.tag != z.tag
  }

  lemma {:induction false} TornSegments(defs: GroupTags, outer: Field, count: Field, mid: seq<Field>, cut: Field, z: Field)
    requires Tears(defs, outer, count, mid, cut, z)
    ensures Segments(Torn(outer, count, mid, cut, z), defs) == [[outer, count] + mid, [cut], [z], [outer]]
  {
    hide RunLength;
    var (s, fs) := ([outer, count] + mid, Torn(outer, count, mid, cut, z));
    var rest := [cut, z, outer];
    assert fs == s + rest && fs[|s|..] == rest && fs[..|s|] == s;
    RunLengthIs(fs[1..], defs[outer.tag], |s| - 1);
    assert BlockLength(fs, defs) == |s|;
    assert rest[1..] == [z, outer];
    if cut.tag in defs {
      RunLengthIs(rest[1..], defs[cut.tag], 0);
    }
    assert BlockLength(rest, defs) == 1 && rest[..1] == [cut];
    assert [z, outer] == [z] + [outer];
    SegmentsOfSingle(z, [outer], defs);
    assert [outer][1..] == [];
    assert BlockLength([outer], defs) == 1 && [outer][..1] == [outer];
    assert Segments([outer], defs) == [[outer]] + Segments([], defs);
    assert Segments(rest, defs) == [[cut]] + ([[z]] + [[outer]]);
  }

  /** Sorted, the second outer field comes right behind the torn segment. */
  lemma {:induction false} TornSorts(defs: GroupTags, outer: Field, count: Field, mid: seq<Field>, cut: Field, z: Field)
    requires Tears(defs, outer, count, mid, cut, z)
    ensures var s := [outer, count] + mid;
            SortSegments([s, [cut], [z], [outer]])
            == if cut.tag < outer.tag then [[cut], s, [outer], [z]] else [s, [outer], [cut], [z]]
  {
    var s := [outer, count] + mid;
    assert [s, [cut], [z], [outer]][1..] == [[cut], [z], [outer]];
    assert [[cut], [z], [outer]][1..] == [[z], [outer]];
    assert [[z], [outer]][1..] == [[outer]];
    assert [[outer]][1..] == [];
    assert SortSegments([[outer]]) == [[outer]];
    assert InsertSegment([z], [[outer]]) == [[outer], [z]];
    assert SortSegments([[z], [outer]]) == [[outer], [z]];
    assert [[outer], [z]][1..] == [[z]];
    if cut.tag < outer.tag {
      var r := [[cut], [outer], [z]];
      assert SortSegments([[cut], [z], [outer]]) == r;
      assert r[1..] == [[outer], [z]];
      assert InsertSegment(s, r) == [[cut]] + InsertSegment(s, [[outer], [z]]);
    } else {
      assert InsertSegment([cut], [[z]]) == [[cut], [z]];
      assert SortSegments([[cut], [z], [outer]]) == [[outer], [cut], [z]];
    }
  }

  lemma {:induction false} TornCanonical(defs: GroupTags, outer: Field, count: Field, mid: seq<Field>, cut: Field, z: Field)
    returns (front: seq<Field>, rest: seq<Field>)
    requires Tears(defs, outer, count, mid, cut, z)
    ensures Canonicalize(Torn(outer, count, mid, cut, z), Some(defs)) == front + ([count] + mid) + rest
    ensures (forall g | g in front :: g == cut || g == outer) && rest != [] && rest[0] == outer
  {
    hide Segments, SortSegments;
    TornSegments(defs, outer, count, mid, cut, z);
    TornSorts(defs, outer, count, mid, cut, z);
    var s := [outer, count] + mid;
    if cut.tag < outer.tag {
      front, rest := [cut, outer], [outer, z];
      FlattenFour([cut], s, [outer], [z]);
      assert [cut] + s + [outer] + [z] == front + ([count] + mid) + rest;
    } else {
      front, rest := [outer], [outer, cut, z];
      FlattenFour(s, [outer], [cut], [z]);
      assert s + [outer] + [cut] + [z] == front + ([count] + mid) + rest;
    }
  }

  lemma {:induction false} FlattenFour(a: seq<Field>, b: seq<Field>, c: seq<Field>, d: seq<Field>)
    ensures Flatten([a, b, c, d]) == a + b + c + d
  {
    hide Flatten;
    FlattenOne(a);
    FlattenSnoc([a], b);
    FlattenSnoc([a, b], c);
    FlattenSnoc([a, b, c], d);
    assert [a] + [b] == [a, b] && [a, b] + [c] == [a, b, c] && [a, b, c] + [d] == [a, b, c, d];
  }

  lemma {:induction false} TornIsIsolated(defs: GroupTags, outer: Field, count: Field, mid: seq<Field>, cut: Field, z: Field)
    requires Tears(defs, outer, count, mid, cut, z)
    ensures Isolated(Torn(outer, count, mid, cut, z), defs, count.tag, 1)
  {
    hide RunLength;
    var fs := Torn(outer, count, mid, cut, z);
    var behind := mid + [cut, z, outer];
    assert fs[1..][1..] == behind;
    RunLengthIs(behind, defs[count.tag], |mid| + 1);
    assert BlockLength(fs[1..], defs) == |mid| + 2;
  }

  /** A count of one is met by one whole instance and by nothing shorter. */
  lemma {:induction false} OneInstance(t: Template, g: seq<Field>)
    requires ValidTemplate(t) && IsInstance(g, t)
    ensures GroupsBehind(Decimal(1), g, t) == Groups([g])
    ensures GroupsBehind(Decimal(1), [], t) != Groups([g])
  {
    hide IsInstance, ParseUnsigned, Decimal;
    FlattenOne(g);
    CollectInstances([g], t, []);
    assert [] + [g] == [g];
    ParseDecimal(1, COUNT_LIMIT);
  }

  /** A template that is not held whole by some group around it has an isolated body that reads differently
      after canonicalisation. */
  lemma {:induction false} TornChangesMeaning(defs: GroupTags, t: Template, d: int, x: int) returns (fs: seq<Field>)
    requires TemplateOf(t, defs) && t.counter !in defs[t.counter]
    requires d in defs && t.counter in defs[d] && d !in defs[t.counter] && x in defs[t.counter] && x !in defs[d]
    ensures Isolated(fs, defs, t.counter, 1) && ReadGroups(Canonicalize(fs, Some(defs)), t) != ReadGroups(fs, t)
  {
    hide Canonicalize, Segments, ReadGroups, Isolated, BlockLength, GroupsBehind, Decimal, Collect;
    var delimiter := Field(Delimiter(t), []);
    assert delimiter.tag in t.members;
    var mid := if delimiter.tag in defs[d] then [delimiter] else [];
    var cut := if delimiter.tag in defs[d] then Field(x, []) else delimiter;
    var (outer, count) := (Field(d, []), Field(t.counter, Decimal(1)));
    var tag := SeparatorExists(defs, [[cut], [outer], [count]]);
    var z := Field(tag, []);
    assert [[cut], [outer], [count]][0][0] == cut && [[cut], [outer], [count]][1][0] == outer && [[cut], [outer], [count]][2][0] == count;
    assert Tears(defs, outer, count, mid, cut, z);
    fs := Torn(outer, count, mid, cut, z);
    TornIsIsolated(defs, outer, count, mid, cut, z);
    var front, rest := TornCanonical(defs, outer, count, mid, cut, z);
    assert fs == [outer] + ([count] + (mid + [cut])) + [z, outer];
    ReadsOnlyBlock([outer], count, mid + [cut], [z, outer], t);
    ReadsOnlyBlock(front, count, mid, rest, t);
    assert cut.tag in t.members;
    assert mid + [cut] == (if delimiter.tag in defs[d] then [delimiter, cut] else [delimiter]);
    OneInstance(t, mid + [cut]);
    if mid != [] {
      OneInstance(t, mid);
    }
  }

  /** Canonicalisation preserves the meaning of every isolated group if and only if whatever group may hold its
      counter may hold all of it. */
  lemma {:induction false} KeepsGroupsIff(defs: GroupTags, t: Template)
    requires TemplateOf(t, defs)
    ensures KeepsGroups(defs, t) <==> HeldWhole(defs, t.counter)
  {
    hide ReadGroups, Canonicalize, Isolated;
    if HeldWhole(defs, t.counter) {
      forall fs: seq<Field>, i: nat | Isolated(fs, defs, t.counter, i)
        ensures ReadGroups(Canonicalize(fs, Some(defs)), t) == ReadGroups(fs, t)
      {
        HeldWholeKeeps(defs, t, fs, i);
      }
    } else {
      var d, x :| d in defs && t.counter in defs[d] && d !in defs[t.counter] && x in defs[t.counter] && x !in defs[d];
      var fs := TornChangesMeaning(defs, t, d, x);
    }
  }
}

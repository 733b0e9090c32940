/**
 When canonicalising a body changes nothing (src/datadictionary.rs), and for which dictionaries
 canonicalising twice is the same as canonicalising once.
 */
module CanonicalForms {
  import opened Messages
  import opened Bytes
  import opened Codec
  import opened FieldGroups

  // ----- fixed points -----

  /** Sorting moves something visible unless the heads ascend already. */
  lemma {:induction false} UnmovedIsAscending(ss: seq<seq<Field>>)
    requires NoneEmpty(ss) && Flatten(SortSegments(ss)) == Flatten(ss)
    ensures Ascending(ss)
  {
    if ss != [] {
      var rest := SortSegments(ss[1..]);
      var r := SortSegments(ss);
      assert Flatten(r)[0] == r[0][0] && Flatten(ss)[0] == ss[0][0];
      assert r == [ss[0]] + rest;
      assert r[1..] == rest;
      CancelPrefix(ss[0], Flatten(rest), Flatten(ss[1..]));
      UnmovedIsAscending(ss[1..]);
      SortKeepsAscending(ss[1..]);
    }
  }

  lemma CancelPrefix(a: seq<Field>, b: seq<Field>, c: seq<Field>)
    requires a + b == a + c
    ensures b == c
  {
    assert b == (a + b)[|a|..] && c == (a + c)[|a|..];
  }

  /** A body is canonical if and only if the heads of its segments ascend. */
  lemma {:induction false} FixedPointIff(fs: seq<Field>, defs: GroupTags)
    ensures Canonicalize(fs, Some(defs)) == fs <==> Ascending(Segments(fs, defs))
  {
    var ss := Segments(fs, defs);
    SegmentsNonEmpty(fs, defs);
    if Canonicalize(fs, Some(defs)) == fs {
      UnmovedIsAscending(ss);
    }
    if Ascending(ss) {
      SortKeepsAscending(ss);
    }
  }

  // ----- the heads of a body, field by field -----

  /** What a block headed by this tag takes in. */
  function Inside(defs: GroupTags, tag: int): set<int> { if tag in defs then defs[tag] else {} }

  /** The head of the block in which a reader that is inside a block of `head` ends up. */
  function LastHead(defs: GroupTags, head: int, fs: seq<Field>): int
    decreases |fs|
  {
    if fs == [] then head
    else LastHead(defs, if fs[0].tag in Inside(defs, head) then head else fs[0].tag, fs[1..])
  }

  /** The reader never meets a head that is smaller than the one before. */
  predicate Climbs(defs: GroupTags, head: int, fs: seq<Field>)
    decreases |fs|
  {
    fs == []
    || (if fs[0].tag in Inside(defs, head) then Climbs(defs, head, fs[1..])
        else head <= fs[0].tag && Climbs(defs, fs[0].tag, fs[1..]))
  }

  lemma {:induction false} ClimbsJoin(defs: GroupTags, head: int, a: seq<Field>, b: seq<Field>)
    ensures Climbs(defs, head, a + b) <==> Climbs(defs, head, a) && Climbs(defs, LastHead(defs, head, a), b)
    ensures LastHead(defs, head, a + b) == LastHead(defs, LastHead(defs, head, a), b)
    decreases |a|
  {
    if a == [] {
      assert a + b == b;
    } else {
      assert (a + b)[0] == a[0] && (a + b)[1..] == a[1..] + b;
      ClimbsJoin(defs, if a[0].tag in Inside(defs, head) then head else a[0].tag, a[1..], b);
    }
  }

  /** The fields of a block are passed over. */
  lemma {:induction false} ClimbsOver(defs: GroupTags, head: int, a: seq<Field>)
    requires forall j | 0 <= j < |a| :: a[j].tag in Inside(defs, head)
    ensures Climbs(defs, head, a) && LastHead(defs, head, a) == head
    decreases |a|
  {
    if a != [] {
      ClimbsOver(defs, head, a[1..]);
    }
  }

  lemma BlockIsInside(fs: seq<Field>, defs: GroupTags)
    requires fs != []
    ensures var n := BlockLength(fs, defs);
            && (forall j | 0 <= j < n - 1 :: fs[1..n][j].tag in Inside(defs, fs[0].tag))
            && (n < |fs| ==> fs[n].tag !in Inside(defs, fs[0].tag))
  {
    hide RunLength;
    var n := BlockLength(fs, defs);
    assert forall j | 0 <= j < n - 1 :: fs[1..n][j] == fs[1..][j];
    assert n < |fs| ==> fs[n] == fs[1..][n - 1];
  }

  /** Climbing is what ascending heads look like field by field. */
  lemma {:induction false} ClimbsIffAscending(fs: seq<Field>, defs: GroupTags)
    requires fs != []
    ensures Ascending(Segments(fs, defs)) <==> Climbs(defs, fs[0].tag, fs[1..])
    decreases |fs|
  {
    hide BlockLength, Inside;
    var n := BlockLength(fs, defs);
    var (block, rest) := (fs[1..n], fs[n..]);
    assert fs[1..] == block + rest;
    BlockIsInside(fs, defs);
    ClimbsOver(defs, fs[0].tag, block);
    ClimbsJoin(defs, fs[0].tag, block, rest);
    AscendingHead(fs, defs);
    if rest != [] {
      ClimbsIffAscending(rest, defs);
    }
  }

  lemma {:induction false} AscendingHead(fs: seq<Field>, defs: GroupTags)
    requires fs != []
    ensures var rest := fs[BlockLength(fs, defs)..];
            Ascending(Segments(fs, defs)) <==> rest == [] || (fs[0].tag <= rest[0].tag && Ascending(Segments(rest, defs)))
  {
    hide BlockLength;
    var n := BlockLength(fs, defs);
    var (ss, r) := (Segments(fs, defs), Segments(fs[n..], defs));
    assert ss == [fs[..n]] + r;
    SegmentsNonEmpty(fs, defs);
    if fs[n..] != [] {
      assert r[0][0] == fs[n..][0];
      AscendingCons(fs[..n], r);
    }
  }

  lemma AscendingCons(s: seq<Field>, r: seq<seq<Field>>)
    requires s != [] && r != [] && NoneEmpty(r)
    ensures Ascending([s] + r) <==> s[0].tag <= r[0][0].tag && Ascending(r)
  {
    var ss := [s] + r;
    if Ascending(ss) {
      assert ss[0][0].tag <= ss[1][0].tag;
      forall j, k | 0 <= j && k == j + 1 && k < |r| ensures r[j][0].tag <= r[k][0].tag {
        assert ss[j + 1][0].tag <= ss[k + 1][0].tag;
      }
    }
  }

  // ----- the exact condition -----

  /** A set of situations (head of the block being read, head of the segment it stands in) that contains
      every beginning, is closed under reading on, and in which no smaller head can be met: neither
      among the members of the segment, nor among the heads of later segments. A caller can compute the
      least such closed set from the dictionary. */
  ghost predicate Certifies(defs: GroupTags, h: set<(int, int)>) {
    && (forall c | c in defs :: (c, c) in h)
    && (forall p, d, y | (p, d) in h && y in Inside(defs, d) && y !in Inside(defs, p) :: p <= y && (y, d) in h)
    && (forall p, d, e | (p, d) in h && d <= e < p :: e in Inside(defs, p))
    && (forall p, d, e | (p, d) in h && e in Inside(defs, p) && e in defs && d <= e :: (p, e) in h)
  }

  ghost predicate Idempotent(defs: GroupTags, fs: seq<Field>) {
    Canonicalize(Canonicalize(fs, Some(defs)), Some(defs)) == Canonicalize(fs, Some(defs))
  }

  ghost predicate AlwaysIdempotent(defs: GroupTags) { forall fs: seq<Field> :: Idempotent(defs, fs) }

  ghost predicate AreSegments(ss: seq<seq<Field>>, defs: GroupTags) { forall j | 0 <= j < |ss| :: IsSegment(ss[j], defs) }

  /** A situation as the certificate describes it; segments that are no groups have no inside. */
  ghost predicate Certified(defs: GroupTags, h: set<(int, int)>, p: int, d: int) {
    (p, d) in h || (p == d && d !in defs)
  }

  lemma MemberStep(defs: GroupTags, h: set<(int, int)>, p: int, d: int, y: int)
    requires Certifies(defs, h) && Certified(defs, h, p, d) && y in Inside(defs, d)
    ensures y in Inside(defs, p) || (p <= y && Certified(defs, h, y, d))
  {
  }

  lemma HeadStep(defs: GroupTags, h: set<(int, int)>, p: int, d: int, e: int)
    requires Certifies(defs, h) && Certified(defs, h, p, d) && d <= e
    ensures if e !in Inside(defs, p) then p <= e && Certified(defs, h, e, e)
            else e in defs ==> Certified(defs, h, p, e)
  {
  }

  lemma SegmentInside(s: seq<Field>, defs: GroupTags)
    requires IsSegment(s, defs)
    ensures forall j | 0 <= j < |s[1..]| :: s[1..][j].tag in Inside(defs, s[0].tag)
    ensures s[0].tag !in defs ==> s[1..] == []
  {
  }

  /** Inside the rest `m` of a segment headed by `d`, with the segments `ss` to come, a reader in a certified
      situation climbs. */
  lemma {:induction false} CertifiedClimbs(
    defs: GroupTags, h: set<(int, int)>, p: int, d: int, m: seq<Field>, ss: seq<seq<Field>>)
    requires Certifies(defs, h) && Certified(defs, h, p, d)
    requires forall j | 0 <= j < |m| :: m[j].tag in Inside(defs, d)
    requires Ascending(ss) && AreSegments(ss, defs) && (ss != [] ==> d <= ss[0][0].tag)
    ensures Climbs(defs, p, m + Flatten(ss))
    decreases |ss|, |m|
  {
    hide Certifies, Certified, Inside, IsSegment, Ascending;
    var fs := m + Flatten(ss);
    if m != [] {
      MemberStep(defs, h, p, d, m[0].tag);
      assert fs[0] == m[0] && fs[1..] == m[1..] + Flatten(ss);
      CertifiedClimbs(defs, h, if m[0].tag in Inside(defs, p) then p else m[0].tag, d, m[1..], ss);
    } else if ss != [] {
      AscendingTail(ss);
      var (s, e) := (ss[0], ss[0][0].tag);
      assert IsSegment(s, defs);
      assert fs == s + Flatten(ss[1..]);
      assert fs[0] == s[0] && fs[1..] == s[1..] + Flatten(ss[1..]);
      SegmentInside(s, defs);
      HeadStep(defs, h, p, d, e);
      var swallowed := e in Inside(defs, p);
      CertifiedClimbs(defs, h, if swallowed then p else e, if swallowed && e !in defs then d else e, s[1..], ss[1..]);
    }
  }

  lemma AscendingTail(ss: seq<seq<Field>>)
    requires Ascending(ss) && ss != []
    ensures Ascending(ss[1..]) && NoneEmpty(ss) && (|ss| > 1 ==> ss[0][0].tag <= ss[1..][0][0].tag)
  {
  }

  /** With a certificate, an ascending list of segments is a canonical body. */
  lemma {:induction false} CertifiedIsCanonical(defs: GroupTags, h: set<(int, int)>, ss: seq<seq<Field>>)
    requires Certifies(defs, h) && Ascending(ss) && AreSegments(ss, defs)
    ensures Canonicalize(Flatten(ss), Some(defs)) == Flatten(ss)
  {
    hide Certifies, Certified, Climbs, Segments, IsSegment, Inside, Canonicalize, Ascending;
    var r := Flatten(ss);
    if ss == [] {
      NoSegments(defs);
    } else {
      var s := ss[0];
      AscendingTail(ss);
      assert IsSegment(s, defs);
      assert r == s + Flatten(ss[1..]) && r[0] == s[0] && r[1..] == s[1..] + Flatten(ss[1..]);
      StartIsCertified(defs, h, s);
      SegmentInside(s, defs);
      CertifiedClimbs(defs, h, s[0].tag, s[0].tag, s[1..], ss[1..]);
      ClimbsIffAscending(r, defs);
    }
    FixedPointIff(r, defs);
  }

  lemma {:induction false} OrderedAreSegments(fs: seq<Field>, defs: GroupTags)
    ensures Ascending(Ordered(fs, defs)) && AreSegments(Ordered(fs, defs), defs)
  {
    hide Ordered, Segments, IsSegment;
    var ss := Ordered(fs, defs);
    CanonicalOrder(fs, defs);
    SegmentsAreSegments(fs, defs);
    forall j | 0 <= j < |ss| ensures IsSegment(ss[j], defs) {
      assert ss[j] in multiset(ss);
    }
  }

  /** With a certificate every body that has been canonicalised stays as it is. */
  lemma {:induction false} CertifiedIsIdempotent(defs: GroupTags, h: set<(int, int)>, fs: seq<Field>)
    requires Certifies(defs, h)
    ensures Idempotent(defs, fs)
  {
    hide Certifies, Ordered, Flatten, Ascending, AreSegments;
    OrderedAreSegments(fs, defs);
    CertifiedIsCanonical(defs, h, Ordered(fs, defs));
  }

  lemma NoSegments(defs: GroupTags)
    ensures Segments([], defs) == [] && Ascending([])
  {
  }

  lemma StartIsCertified(defs: GroupTags, h: set<(int, int)>, s: seq<Field>)
    requires Certifies(defs, h) && IsSegment(s, defs)
    ensures Certified(defs, h, s[0].tag, s[0].tag)
  {
  }

  // ----- every ascending list of segments is some body in canonical order -----

  /** The segments with a separator behind each. */
  function Spaced(ss: seq<seq<Field>>, z: Field): seq<Field> {
    if ss == [] then [] else ss[0] + ([z] + Spaced(ss[1..], z))
  }

  function SpacedList(ss: seq<seq<Field>>, z: Field): seq<seq<Field>> {
    if ss == [] then [] else [ss[0], [z]] + SpacedList(ss[1..], z)
  }

  function Copies(z: Field, n: nat): (r: seq<seq<Field>>)
    ensures |r| == n && forall j | 0 <= j < n :: r[j] == [z]
  {
    if n == 0 then [] else [[z]] + Copies(z, n - 1)
  }

  /** A tag that no group and no segment knows. */
  ghost predicate IsSeparator(defs: GroupTags, ss: seq<seq<Field>>, z: int) {
    && z !in defs && (forall c | c in defs :: z !in defs[c])
    && (forall j | 0 <= j < |ss| :: ss[j] != [] && ss[j][0].tag < z)
  }

  lemma {:induction false} BlockStopsAt(s: seq<Field>, z: Field, rest: seq<Field>, defs: GroupTags)
    requires IsSegment(s, defs) && forall c | c in defs :: z.tag !in defs[c]
    ensures BlockLength(s + ([z] + rest), defs) == |s|
  {
    hide RunLength;
    var fs := s + ([z] + rest);
    if s[0].tag in defs {
      assert fs[1..] == s[1..] + ([z] + rest);
      RunLengthIs(fs[1..], defs[s[0].tag], |s| - 1);
    }
  }

  lemma {:induction false} SpacedSegments(ss: seq<seq<Field>>, z: Field, defs: GroupTags)
    requires AreSegments(ss, defs) && IsSeparator(defs, ss, z.tag)
    ensures Segments(Spaced(ss, z), defs) == SpacedList(ss, z)
    decreases |ss|
  {
    hide BlockLength, IsSegment;
    if ss != [] {
      var (s, rest) := (ss[0], Spaced(ss[1..], z));
      var fs := s + ([z] + rest);
      BlockStopsAt(s, z, rest, defs);
      assert s != [];
      assert fs[..|s|] == s && fs[|s|..] == [z] + rest;
      SegmentsOfSingle(z, rest, defs);
      SpacedSegments(ss[1..], z, defs);
      assert [s] + ([[z]] + SpacedList(ss[1..], z)) == [s, [z]] + SpacedList(ss[1..], z);
    }
  }

  lemma SegmentsOfSingle(z: Field, rest: seq<Field>, defs: GroupTags)
    requires z.tag !in defs
    ensures Segments([z] + rest, defs) == [[z]] + Segments(rest, defs)
  {
    var fs := [z] + rest;
    assert BlockLength(fs, defs) == 1 && fs[..1] == [z] && fs[1..] == rest;
  }

  lemma {:induction false} InsertSeparator(ss: seq<seq<Field>>, z: Field, n: nat)
    requires NoneEmpty(ss) && forall j | 0 <= j < |ss| :: ss[j][0].tag < z.tag
    ensures NoneEmpty(ss + Copies(z, n)) && InsertSegment([z], ss + Copies(z, n)) == ss + Copies(z, n + 1)
    decreases |ss|
  {
    var all := ss + Copies(z, n);
    if ss == [] {
      assert all == Copies(z, n);
    } else {
      assert all[0] == ss[0] && all[1..] == ss[1..] + Copies(z, n);
      InsertSeparator(ss[1..], z, n);
      assert [ss[0]] + (ss[1..] + Copies(z, n + 1)) == ss + Copies(z, n + 1);
    }
  }

  lemma {:induction false} SpacedListNonEmpty(ss: seq<seq<Field>>, z: Field)
    requires NoneEmpty(ss)
    ensures NoneEmpty(SpacedList(ss, z))
    decreases |ss|
  {
    if ss != [] {
      SpacedListNonEmpty(ss[1..], z);
    }
  }

  /** Sorting brings all separators to the end. */
  lemma {:induction false} SpacedSorts(ss: seq<seq<Field>>, z: Field)
    requires Ascending(ss) && forall j | 0 <= j < |ss| :: ss[j][0].tag < z.tag
    ensures NoneEmpty(SpacedList(ss, z)) && SortSegments(SpacedList(ss, z)) == ss + Copies(z, |ss|)
    decreases |ss|
  {
    hide Ascending, InsertSegment, Copies;
    if ss != [] {
      var (list, rest) := (SpacedList(ss, z), SpacedList(ss[1..], z));
      AscendingTail(ss);
      SpacedListNonEmpty(ss, z);
      SpacedSorts(ss[1..], z);
      assert list[0] == ss[0] && list[1..] == [[z]] + rest && ([[z]] + rest)[1..] == rest;
      InsertSeparator(ss[1..], z, |ss| - 1);
      assert SortSegments([[z]] + rest) == ss[1..] + Copies(z, |ss|);
      InsertFirst(ss, z);
    }
  }

  lemma InsertFirst(ss: seq<seq<Field>>, z: Field)
    requires Ascending(ss) && ss != [] && forall j | 0 <= j < |ss| :: ss[j][0].tag < z.tag
    ensures var tail := ss[1..] + Copies(z, |ss|);
            NoneEmpty(tail) && InsertSegment(ss[0], tail) == ss + Copies(z, |ss|)
  {
    hide Ascending, Copies;
    AscendingTail(ss);
    var copies: seq<seq<Field>> := Copies(z, |ss|);
    var tail: seq<seq<Field>> := ss[1..] + copies;
    assert copies[0] == [z];
    assert tail[0] == if |ss| > 1 then ss[1] else [z];
    assert ss[0][0].tag <= tail[0][0].tag;
    ConsJoin(ss, copies);
  }

  lemma ConsJoin(ss: seq<seq<Field>>, more: seq<seq<Field>>)
    requires ss != []
    ensures [ss[0]] + (ss[1..] + more) == ss + more
  {
  }

  lemma {:induction false} UpperBound(tags: set<int>) returns (z: int)
    ensures forall x | x in tags :: x < z
    decreases |tags|
  {
    z := 0;
    if t :| t in tags {
      var rest := tags - {t};
      z := UpperBound(rest);
      assert forall x | x in tags :: x == t || x in rest;
      z := if t < z then z else t + 1;
    }
  }

  /** Every tag a dictionary mentions. */
  ghost function Mentioned(defs: GroupTags): (r: set<int>)
    ensures forall c | c in defs :: c in r
    ensures forall c, t | t in Inside(defs, c) :: t in r
  {
    var inside := set c, t | c in defs && t in defs[c] :: t;
    assert forall c, t | c in defs && t in defs[c] :: t in inside;
    defs.Keys + inside
  }

  lemma SeparatorExists(defs: GroupTags, ss: seq<seq<Field>>) returns (z: int)
    requires NoneEmpty(ss)
    ensures IsSeparator(defs, ss, z)
  {
    hide Mentioned;
    var heads := set j | 0 <= j < |ss| :: ss[j][0].tag;
    z := UpperBound(Mentioned(defs) + heads);
    forall j | 0 <= j < |ss| ensures ss[j][0].tag < z {
      assert ss[j][0].tag in heads;
    }
    assert z !in Mentioned(defs);
    forall c | c in defs ensures z !in defs[c] {
      assert defs[c] == Inside(defs, c);
      assert z in Inside(defs, c) ==> z in Mentioned(defs);
    }
  }

  /** If canonicalising is always idempotent, then every ascending list of segments climbs, because it is
      the canonical order of a body. */
  lemma {:induction false} IdempotentClimbs(defs: GroupTags, ss: seq<seq<Field>>)
    requires AlwaysIdempotent(defs) && ss != [] && Ascending(ss) && AreSegments(ss, defs)
    ensures Flatten(ss) != [] && Climbs(defs, Flatten(ss)[0].tag, Flatten(ss)[1..])
  {
    hide Segments, SortSegments, Climbs, IsSegment, Spaced, SpacedList, Flatten;
    var tag := SeparatorExists(defs, ss);
    var z := Field(tag, []);
    var fs := Spaced(ss, z);
    SpacedSegments(ss, z, defs);
    SpacedSorts(ss, z);
    var tail := Flatten(Copies(z, |ss|));
    FlattenJoin(ss, Copies(z, |ss|));
    assert Canonicalize(fs, Some(defs)) == Flatten(ss) + tail;
    assert Idempotent(defs, fs);
    FlattenNonEmpty(ss);
    var all := Flatten(ss) + tail;
    FixedPointIff(all, defs);
    ClimbsIffAscending(all, defs);
    assert all[1..] == Flatten(ss)[1..] + tail;
    ClimbsJoin(defs, all[0].tag, Flatten(ss)[1..], tail);
  }

  lemma FlattenNonEmpty(ss: seq<seq<Field>>)
    requires ss != [] && NoneEmpty(ss)
    ensures Flatten(ss) != [] && Flatten(ss)[0] == ss[0][0]
  {
  }

  // ----- the situations that can be reached -----

  /** Reading this ascending list of segments ends in the situation (p, d). */
  ghost predicate Reaches(defs: GroupTags, ss: seq<seq<Field>>, p: int, d: int) {
    && ss != [] && Ascending(ss) && AreSegments(ss, defs) && ss[|ss| - 1][0].tag == d
    && Flatten(ss) != [] && LastHead(defs, Flatten(ss)[0].tag, Flatten(ss)[1..]) == p
  }

  ghost predicate Reachable(defs: GroupTags, p: int, d: int) { exists ss :: Reaches(defs, ss, p, d) }

  /** Reading one more field. */
  lemma {:induction false} ReadsOneMore(defs: GroupTags, p: int, ss: seq<seq<Field>>, d: int, longer: seq<seq<Field>>, f: Field)
    requires Reaches(defs, ss, p, d) && Flatten(longer) == Flatten(ss) + [f]
    ensures var (head, fs) := (Flatten(longer)[0].tag, Flatten(longer)[1..]);
            && LastHead(defs, head, fs) == (if f.tag in Inside(defs, p) then p else f.tag)
            && (Climbs(defs, head, fs) ==> f.tag in Inside(defs, p) || p <= f.tag)
  {
    hide Flatten, Ascending, AreSegments;
    var fs := Flatten(ss)[1..];
    assert Flatten(longer)[1..] == fs + [f];
    ClimbsJoin(defs, Flatten(ss)[0].tag, fs, [f]);
    assert [f][1..] == [];
  }

  lemma {:induction false} FlattenSnoc(ss: seq<seq<Field>>, s: seq<Field>)
    ensures Flatten(ss + [s]) == Flatten(ss) + s
  {
    FlattenJoin(ss, [s]);
    FlattenOne(s);
  }

  /** One more member in the last segment. */
  lemma {:induction false} MemberFollows(defs: GroupTags, ss: seq<seq<Field>>, p: int, d: int, y: int)
    requires AlwaysIdempotent(defs) && Reaches(defs, ss, p, d) && y in Inside(defs, d)
    ensures y in Inside(defs, p) || (p <= y && Reachable(defs, y, d))
  {
    hide Climbs, LastHead, AlwaysIdempotent, Flatten;
    var (f, last) := (Field(y, []), |ss| - 1);
    var (front, s) := (ss[..last], ss[last]);
    assert ss == front + [s];
    var longer := front + [s + [f]];
    assert forall j | 0 <= j < last :: longer[j] == ss[j];
    assert longer[last] == s + [f];
    assert Ascending(longer) && AreSegments(longer, defs);
    FlattenSnoc(front, s);
    FlattenSnoc(front, s + [f]);
    assert Flatten(longer) == Flatten(ss) + [f];
    ReadsOneMore(defs, p, ss, d, longer, f);
    IdempotentClimbs(defs, longer);
    if y !in Inside(defs, p) {
      assert Reaches(defs, longer, y, d);
    }
  }

  /** One more segment, of a single field. */
  lemma {:induction false} SegmentFollows(defs: GroupTags, ss: seq<seq<Field>>, p: int, d: int, e: int)
    requires AlwaysIdempotent(defs) && Reaches(defs, ss, p, d) && d <= e
    ensures if e in Inside(defs, p) then Reachable(defs, p, e) else p <= e
  {
    hide Climbs, LastHead, AlwaysIdempotent, Flatten;
    var (f, last) := (Field(e, []), |ss| - 1);
    var longer := ss + [[f]];
    assert forall j | 0 <= j < |ss| :: longer[j] == ss[j];
    assert longer[|ss|] == [f];
    assert IsSegment([f], defs);
    assert Ascending(longer) && AreSegments(longer, defs);
    FlattenSnoc(ss, [f]);
    ReadsOneMore(defs, p, ss, d, longer, f);
    IdempotentClimbs(defs, longer);
    if e in Inside(defs, p) {
      assert Reaches(defs, longer, p, e);
    }
  }

  lemma {:induction false} StartIsReachable(defs: GroupTags, c: int)
    ensures Reachable(defs, c, c)
  {
    var ss := [[Field(c, [])]];
    FlattenOne([Field(c, [])]);
    assert Flatten(ss)[1..] == [];
    assert IsSegment(ss[0], defs);
    assert Reaches(defs, ss, c, c);
  }

  ghost function ReachableSet(defs: GroupTags): (h: set<(int, int)>)
    ensures forall p, d :: (p, d) in h <==> p in Mentioned(defs) && d in Mentioned(defs) && Reachable(defs, p, d)
  {
    set p, d | p in Mentioned(defs) && d in Mentioned(defs) && Reachable(defs, p, d) :: (p, d)
  }

  lemma {:induction false} ReachableCertifies(defs: GroupTags)
    requires AlwaysIdempotent(defs)
    ensures Certifies(defs, ReachableSet(defs))
  {
    hide AlwaysIdempotent, Reachable, ReachableSet, Mentioned, Inside;
    var h := ReachableSet(defs);
    forall c | c in defs ensures (c, c) in h {
      StartIsReachable(defs, c);
    }
    forall p, d, y | (p, d) in h && y in Inside(defs, d) && y !in Inside(defs, p) ensures p <= y && (y, d) in h {
      var ss := Witness(defs, p, d);
      MemberFollows(defs, ss, p, d, y);
    }
    forall p, d, e | (p, d) in h && d <= e < p ensures e in Inside(defs, p) {
      var ss := Witness(defs, p, d);
      SegmentFollows(defs, ss, p, d, e);
    }
    forall p, d, e | (p, d) in h && e in Inside(defs, p) && e in defs && d <= e ensures (p, e) in h {
      var ss := Witness(defs, p, d);
      SegmentFollows(defs, ss, p, d, e);
    }
  }

  lemma Witness(defs: GroupTags, p: int, d: int) returns (ss: seq<seq<Field>>)
    requires Reachable(defs, p, d)
    ensures Reaches(defs, ss, p, d)
  {
    ss :| Reaches(defs, ss, p, d);
  }

  // ----- the main result and two conditions that are easy to read -----

  /** Canonicalising twice is canonicalising once, for every body, if and only if the dictionary has a
      certificate. */
  lemma {:induction false} IdempotentIff(defs: GroupTags)
    ensures AlwaysIdempotent(defs) <==> exists h: set<(int, int)> :: Certifies(defs, h)
  {
    hide Certifies, Idempotent;
    if AlwaysIdempotent(defs) {
      ReachableCertifies(defs);
    }
    if h: set<(int, int)> :| Certifies(defs, h) {
      forall fs: seq<Field> ensures Idempotent(defs, fs) {
        CertifiedIsIdempotent(defs, h, fs);
      }
    }
  }

  /** A group that may hold the counter of a larger-tagged group may hold all of that group. */
  ghost predicate NestsWhole(defs: GroupTags) {
    forall c, d | c in defs && d in defs && c <= d && d in defs[c] :: defs[d] <= defs[c]
  }

  /** Such dictionaries are fine, in particular those where no counter may occur inside a group. */
  lemma {:induction false} CanonicalIsIdempotent(fs: seq<Field>, defs: GroupTags)
    requires NestsWhole(defs)
    ensures Idempotent(defs, fs)
  {
    hide Idempotent;
    var h := set c, d | c in defs && d in defs && c <= d && (c == d || d in defs[c]) :: (c, d);
    assert Certifies(defs, h);
    CertifiedIsIdempotent(defs, h, fs);
  }

  /** In a certified dictionary, what an inner group adds to an outer one is not smaller than the outer counter. */
  lemma CertifiedNesting(defs: GroupTags, h: set<(int, int)>, c: int, d: int, x: int)
    requires Certifies(defs, h) && c in defs && d in defs && c < d && d in defs[c] && x in defs[d] && x !in defs[c]
    ensures c <= x
  {
    assert (c, c) in h;
    assert Inside(defs, c) == defs[c] && Inside(defs, d) == defs[d];
    assert (c, d) in h;
  }

  /** Any other nesting breaks as soon as the part left outside has a member smaller than the outer
      counter: some body changes when it is canonicalised a second time. */
  lemma {:induction false} PartialNestingBreaks(defs: GroupTags, c: int, d: int, x: int) returns (fs: seq<Field>)
    requires c in defs && d in defs && c < d && d in defs[c] && x in defs[d] && x !in defs[c] && x < c
    ensures !Idempotent(defs, fs)
  {
    hide Idempotent, Certifies;
    IdempotentIff(defs);
    if h: set<(int, int)> :| Certifies(defs, h) {
      CertifiedNesting(defs, h, c, d, x);
    }
    fs :| !Idempotent(defs, fs);
  }
}

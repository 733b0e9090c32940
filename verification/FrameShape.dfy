/**
 What the framer takes for a message, stated over positions in the stream: where a frame begins and
 ends, which beginnings are garbled, and which frame of a stream comes first.
 */
module FrameShape {
  import opened Messages
  import opened Bytes
  import opened Framer

  /** `at` is the first place at or behind `from` where `needle` stands. */
  ghost predicate FirstFrom(b: Bytes, needle: Bytes, from: nat, at: nat) {
    from <= at && Occurs(b, needle, at) && forall i: nat | from <= i < at :: !Occurs(b, needle, i)
  }

  lemma {:induction false} FindIff(b: Bytes, needle: Bytes, from: nat, at: nat)
    requires needle != []
    ensures Find(b, needle, from) == Some(at) <==> FirstFrom(b, needle, from, at)
  {
    hide Find, Occurs;
    if FirstFrom(b, needle, from, at) {
      FindIs(b, needle, from, at);
    }
  }

  /** The first field ends at `soh1`, the second begins with "9=" and ends at `soh2`. */
  ghost predicate LengthField(b: Bytes, soh1: nat, soh2: nat) {
    && FirstFrom(b, [SOH], 0, soh1) && soh1 + 3 <= |b| && b[soh1 + 1..soh1 + 3] == LENGTH
    && soh1 + 3 <= soh2 < |b| && FirstFrom(b, [SOH], soh1 + 3, soh2)
  }

  /** A frame of `end` bytes: behind a BodyLength n comes, at the end of these n bytes or later, the first
      CheckSum tag, and the frame ends with the SOH behind it. */
  ghost predicate IsFrame(b: Bytes, end: nat) {
    exists soh1: nat, soh2: nat, sum: nat :: FrameAt(b, soh1, soh2, sum, end)
  }

  ghost predicate FrameAt(b: Bytes, soh1: nat, soh2: nat, sum: nat, end: nat) {
    && LengthField(b, soh1, soh2)
    && var n := ParseUnsigned(b[soh1 + 3..soh2], LENGTH_LIMIT);
    && n.Some? && EndsAt(b, soh2 + n.value, sum, end)
  }

  /** The first CheckSum tag from `from` on stands at `sum`, and its field ends in front of `end`. */
  ghost predicate EndsAt(b: Bytes, from: nat, sum: nat, end: nat) {
    FirstFrom(b, CHECKSUM, from, sum) && end > 0 && FirstFrom(b, [SOH], sum + 4, end - 1)
  }

  /** Beginnings that no further bytes can make a frame: the second field is not a BodyLength, or holds no
      number. */
  ghost predicate IsGarbled(b: Bytes) {
    exists soh1: nat :: GarbledAt(b, soh1)
  }

  ghost predicate GarbledAt(b: Bytes, soh1: nat) {
    && FirstFrom(b, [SOH], 0, soh1) && soh1 + 3 <= |b|
    && (b[soh1 + 1..soh1 + 3] != LENGTH
        || exists soh2: nat :: LengthField(b, soh1, soh2) && ParseUnsigned(b[soh1 + 3..soh2], LENGTH_LIMIT).None?)
  }

  /** The scanner recognises exactly these. */
  lemma {:induction false} ScanIff(b: Bytes, end: nat)
    ensures ScanFrame(b) == Complete(end) <==> IsFrame(b, end)
  {
    hide Find, Occurs, ParseUnsigned, FirstFrom, ScanTrailer;
    if ScanFrame(b) == Complete(end) {
      var soh1 := Find(b, [SOH], 0).value;
      var soh2 := Find(b, [SOH], soh1 + 3).value;
      FindIff(b, [SOH], 0, soh1);
      FindIff(b, [SOH], soh1 + 3, soh2);
      FoundInside(b, soh1 + 3, soh2);
      var n := ParseUnsigned(b[soh1 + 3..soh2], LENGTH_LIMIT).value;
      TrailerIff(b, soh2 + n, end);
      var sum: nat :| EndsAt(b, soh2 + n, sum, end);
      assert FrameAt(b, soh1, soh2, sum, end);
    }
    if IsFrame(b, end) {
      var soh1: nat, soh2: nat, sum: nat :| FrameAt(b, soh1, soh2, sum, end);
      FindIff(b, [SOH], 0, soh1);
      FindIff(b, [SOH], soh1 + 3, soh2);
      FoundInside(b, soh1 + 3, soh2);
      TrailerIff(b, soh2 + ParseUnsigned(b[soh1 + 3..soh2], LENGTH_LIMIT).value, end);
    }
  }

  lemma {:induction false} GarbledIff(b: Bytes)
    ensures ScanFrame(b).Garbled? <==> IsGarbled(b)
  {
    hide Find, Occurs, ParseUnsigned, FirstFrom, ScanTrailer;
    if ScanFrame(b).Garbled? {
      var soh1 := Find(b, [SOH], 0).value;
      FindIff(b, [SOH], 0, soh1);
      if b[soh1 + 1..soh1 + 3] == LENGTH {
        var soh2 := Find(b, [SOH], soh1 + 3).value;
        FindIff(b, [SOH], soh1 + 3, soh2);
        FoundInside(b, soh1 + 3, soh2);
        var n := ParseUnsigned(b[soh1 + 3..soh2], LENGTH_LIMIT);
        if n.Some? {
          TrailerOutcome(b, soh2 + n.value);
        }
        assert LengthField(b, soh1, soh2);
      }
      assert GarbledAt(b, soh1);
    }
    if IsGarbled(b) {
      var soh1: nat :| GarbledAt(b, soh1);
      FindIff(b, [SOH], 0, soh1);
      if b[soh1 + 1..soh1 + 3] == LENGTH {
        var soh2: nat :| LengthField(b, soh1, soh2) && ParseUnsigned(b[soh1 + 3..soh2], LENGTH_LIMIT).None?;
        FindIff(b, [SOH], soh1 + 3, soh2);
      }
    }
  }

  lemma FoundInside(b: Bytes, from: nat, at: nat)
    requires FirstFrom(b, [SOH], from, at)
    ensures from <= at < |b|
  {
  }

  lemma {:induction false} TrailerIff(b: Bytes, from: nat, end: nat)
    ensures ScanTrailer(b, from) == Complete(end) <==> exists sum: nat :: EndsAt(b, from, sum, end)
  {
    hide Find, Occurs, FirstFrom;
    if ScanTrailer(b, from) == Complete(end) {
      var sum := Find(b, CHECKSUM, from).value;
      FindIff(b, CHECKSUM, from, sum);
      FindIff(b, [SOH], sum + 4, end - 1);
      assert EndsAt(b, from, sum, end);
    }
    if sum: nat :| EndsAt(b, from, sum, end) {
      SumInside(b, from, sum);
      FindIff(b, CHECKSUM, from, sum);
      FindIff(b, [SOH], sum + 4, end - 1);
    }
  }

  lemma SumInside(b: Bytes, from: nat, at: nat)
    requires FirstFrom(b, CHECKSUM, from, at)
    ensures from < |b|
  {
  }

  /** `at` is the first beginning that is not garbled, `f` the frame there, `rest` what follows. */
  ghost predicate FirstFrame(buf: Bytes, at: nat, f: Bytes, rest: Bytes) {
    && Occurs(buf, BEGIN, at) && IsFrame(buf[at..], |f|) && |f| <= |buf| - at
    && f == buf[at..][..|f|] && rest == buf[at..][|f|..]
    && (forall i: nat | i < at && Occurs(buf, BEGIN, i) :: IsGarbled(buf[i..]))
  }

  /** What is extracted is the frame at the first beginning that is not garbled; everything before it is
      dropped. And if there is such a frame, it is extracted. */
  lemma {:induction false} ExtractIff(buf: Bytes, f: Bytes, rest: Bytes)
    ensures Extract(buf) == Frame(f, rest) <==> exists at: nat :: FirstFrame(buf, at, f, rest)
    decreases |buf|
  {
    hide Extract, Find, Occurs, ScanFrame, IsFrame, IsGarbled;
    ExtractUnfolds(buf);
    var r := Find(buf, BEGIN, 0);
    if r.Some? {
      assert FirstFrom(buf, BEGIN, 0, r.value) by { FindIff(buf, BEGIN, 0, r.value); }
      BeginInside(buf, r.value);
      var b := buf[r.value..];
      GarbledIff(b);
      forall end: nat ensures ScanFrame(b) == Complete(end) <==> IsFrame(b, end) {
        ScanIff(b, end);
      }
      if ScanFrame(b).Garbled? {
        ExtractIff(b[2..], f, rest);
        SkipGarbled(buf, r.value, f, rest);
      } else {
        forall at: nat | FirstFrame(buf, at, f, rest) ensures at == r.value {
          NotBeyond(buf, r.value, at);
        }
        if ScanFrame(b).Complete? {
          var end := ScanFrame(b).end;
          assert FirstFrame(buf, r.value, b[..end], b[end..]);
        }
      }
    }
  }

  lemma BeginInside(buf: Bytes, at: nat)
    requires Occurs(buf, BEGIN, at)
    ensures at + 2 <= |buf|
  {
  }

  /** A beginning that is not garbled is not passed over. */
  lemma NotBeyond(buf: Bytes, first: nat, at: nat)
    requires FirstFrom(buf, BEGIN, 0, first) && first <= |buf| && !IsGarbled(buf[first..])
    requires Occurs(buf, BEGIN, at) && forall i: nat | i < at && i <= |buf| && Occurs(buf, BEGIN, i) :: IsGarbled(buf[i..])
    ensures at == first
  {
    hide Occurs, IsGarbled;
  }

  /** Dropping a garbled beginning changes nothing about what comes first behind it. */
  lemma {:induction false} SkipGarbled(buf: Bytes, first: nat, f: Bytes, rest: Bytes)
    requires FirstFrom(buf, BEGIN, 0, first) && first + 2 <= |buf| && IsGarbled(buf[first..]) && !exists end: nat :: IsFrame(buf[first..], end)
    ensures (exists at: nat :: FirstFrame(buf, at, f, rest)) <==> exists at: nat :: FirstFrame(buf[first..][2..], at, f, rest)
  {
    hide Occurs, IsGarbled, IsFrame;
    var off := first + 2;
    var tail := buf[first..][2..];
    assert tail == buf[off..] by { TailOfTail(buf, first, 2); }
    assert !Occurs(buf, BEGIN, first + 1) by { NoOverlap(buf, first); }
    forall i: nat | off <= i <= |buf| ensures buf[i..] == tail[i - off..] {
      TailOfTail(buf, off, i - off);
    }
    forall i: nat | off <= i ensures Occurs(buf, BEGIN, i) <==> Occurs(tail, BEGIN, i - off) {
      OccursInTail(buf, off, i);
    }
    if at: nat :| FirstFrame(buf, at, f, rest) {
      assert IsFrame(buf[at..], |f|);
      assert at != first;
      assert at >= off;
      Shifted(buf, off, at, f, rest);
    }
    if at: nat :| FirstFrame(tail, at, f, rest) {
      Unshifted(buf, first, at, f, rest);
    }
  }

  lemma NoOverlap(buf: Bytes, at: nat)
    requires Occurs(buf, BEGIN, at)
    ensures !Occurs(buf, BEGIN, at + 1)
  {
    assert buf[at..at + 2][1] == buf[at + 1];
    if at + 3 <= |buf| {
      assert buf[at + 1..at + 3][0] == buf[at + 1];
    }
  }

  lemma Shifted(buf: Bytes, off: nat, at: nat, f: Bytes, rest: Bytes)
    requires off <= at && FirstFrame(buf, at, f, rest)
    ensures FirstFrame(buf[off..], at - off, f, rest)
  {
    hide IsGarbled, IsFrame, Occurs;
    var tail := buf[off..];
    TailOfTail(buf, off, at - off);
    OccursInTail(buf, off, at);
    forall i: nat | i < at - off && Occurs(tail, BEGIN, i) ensures IsGarbled(tail[i..]) {
      OccursInTail(buf, off, i + off);
      TailOfTail(buf, off, i);
      assert IsGarbled(buf[i + off..]);
    }
  }

  lemma Unshifted(buf: Bytes, first: nat, at: nat, f: Bytes, rest: Bytes)
    requires FirstFrom(buf, BEGIN, 0, first) && first + 2 <= |buf| && IsGarbled(buf[first..])
    requires FirstFrame(buf[first + 2..], at, f, rest)
    ensures FirstFrame(buf, at + first + 2, f, rest)
  {
    hide IsGarbled, IsFrame, Occurs;
    var off := first + 2;
    var tail := buf[off..];
    OccursInTail(buf, off, at + off);
    BeginInside(tail, at);
    TailOfTail(buf, off, at);
    NoOverlap(buf, first);
    forall i: nat | i < at + off && Occurs(buf, BEGIN, i) ensures IsGarbled(buf[i..]) {
      if i >= off {
        OccursInTail(buf, off, i);
        BeginInside(tail, i - off);
        TailOfTail(buf, off, i - off);
        assert IsGarbled(tail[i - off..]);
      }
    }
  }
}

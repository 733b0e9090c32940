/**
 Stream framing (src/parser.rs): carving messages out of a byte stream, independently of how
 the stream is cut into reads.
 */
module Framer {
  import opened Messages
  import opened Bytes

  const BEGIN: Bytes := [56, 61]                // "8="
  const LENGTH: Bytes := [57, 61]               // "9="
  const CHECKSUM: Bytes := [SOH, 49, 48, 61]    // SOH "10="

  /** BodyLength is read as a 64-bit unsigned number. */
  const LENGTH_LIMIT: nat := 0x1_0000_0000_0000_0000

  predicate Occurs(hay: Bytes, needle: Bytes, at: nat) {
    at + |needle| <= |hay| && hay[at..at + |needle|] == needle
  }

  /** First occurrence of `needle` at or behind `from`. */
  function Find(hay: Bytes, needle: Bytes, from: nat): (r: Option<nat>)
    requires needle != []
    ensures r.Some? ==> from <= r.value && Occurs(hay, needle, r.value)
    ensures forall i: nat | from <= i && (r.Some? ==> i < r.value) :: !Occurs(hay, needle, i)
    decreases |hay| - from
  {
    if from + |needle| > |hay| then None
    else if Occurs(hay, needle, from) then Some(from)
    else Find(hay, needle, from + 1)
  }

  // ----- one frame -----

  /** What the bytes behind an "8=" amount to. */
  datatype Scan = NeedMore | Garbled | Complete(end: nat)

  /** Where the search for the checksum starts: on the last byte of the body, if BodyLength is right. */
  function SearchFrom(bodyStart: nat, bodyLength: nat): nat {
    if bodyStart + bodyLength == 0 then 0 else bodyStart + bodyLength - 1
  }

  function ScanTrailer(b: Bytes, from: nat): Scan {
    if from >= |b| then NeedMore
    else
      match Find(b, CHECKSUM, from)
      case None => NeedMore
      case Some(checksum) =>
        match Find(b, [SOH], checksum + 4)
        case None => NeedMore
        case Some(end) => Complete(end + 1)
  }

  function ScanFrame(b: Bytes): Scan {
    match Find(b, [SOH], 0)
    case None => NeedMore
    case Some(soh1) =>
      if |b| < soh1 + 3 then NeedMore
      else if b[soh1 + 1..soh1 + 3] != LENGTH then Garbled
      else
        match Find(b, [SOH], soh1 + 3)
        case None => NeedMore
        case Some(soh2) =>
          match ParseUnsigned(b[soh1 + 3..soh2], LENGTH_LIMIT)
          case None => Garbled
          case Some(length) => ScanTrailer(b, SearchFrom(soh2 + 1, length))
  }

  datatype Extracted = Frame(bytes: Bytes, rest: Bytes) | Incomplete(rest: Bytes)

  /** The bytes that must be kept when no "8=" is in sight. */
  function KeptTail(buf: Bytes): Bytes {
    if buf != [] && buf[|buf| - 1] == 56 then [56] else []
  }

  lemma ScanBounds(b: Bytes)
    requires ScanFrame(b).Complete?
    ensures 2 <= ScanFrame(b).end <= |b| && b[ScanFrame(b).end - 1] == SOH
  {
    hide Find, ParseUnsigned;
  }

  /** The next frame, skipping garbage and garbled frames. */
  function Extract(buf: Bytes): (r: Extracted)
    ensures r.Frame? ==> |r.rest| < |buf|
    decreases |buf|
  {
    match Find(buf, BEGIN, 0)
    case None => Incomplete(KeptTail(buf))
    case Some(start) =>
      var b := buf[start..];
      match ScanFrame(b)
      case NeedMore => Incomplete(b)
      case Garbled => Extract(b[2..])
      case Complete(end) => ScanBounds(b); Frame(b[..end], b[end..])
  }

  /** All frames of a buffer, and what remains. */
  function Frames(buf: Bytes): (seq<Bytes>, Bytes)
    decreases |buf|
  {
    match Extract(buf)
    case Incomplete(rest) => ([], rest)
    case Frame(f, rest) => ([f] + Frames(rest).0, Frames(rest).1)
  }

  // ----- more bytes never change what was decided -----

  /** The first occurrence is the only candidate. */
  lemma {:induction false} FindIs(hay: Bytes, needle: Bytes, from: nat, at: nat)
    requires needle != [] && from <= at && Occurs(hay, needle, at)
    requires forall i: nat | from <= i < at :: !Occurs(hay, needle, i)
    ensures Find(hay, needle, from) == Some(at)
  {
  }

  lemma {:induction false} FindIsNone(hay: Bytes, needle: Bytes, from: nat)
    requires needle != [] && forall i: nat | from <= i :: !Occurs(hay, needle, i)
    ensures Find(hay, needle, from).None?
  {
  }

  lemma {:induction false} FindStable(hay: Bytes, more: Bytes, needle: Bytes, from: nat)
    requires needle != [] && Find(hay, needle, from).Some?
    ensures Find(hay + more, needle, from) == Find(hay, needle, from)
  {
    hide Find;
    var at := Find(hay, needle, from).value;
    forall i: nat | i <= at ensures Occurs(hay + more, needle, i) <==> Occurs(hay, needle, i) {
      assert (hay + more)[i..i + |needle|] == hay[i..i + |needle|];
    }
    FindIs(hay + more, needle, from, at);
  }

  /** The first occurrence of a byte behind a stretch that does not contain it. */
  lemma FindByte(a: Bytes, s: Bytes, b: byte, c: Bytes)
    requires b !in s
    ensures Find(a + s + [b] + c, [b], |a|) == Some(|a| + |s|)
  {
    var raw := a + s + [b] + c;
    assert raw[|a| + |s|] == b;
    forall i: nat | |a| <= i < |a| + |s| ensures !Occurs(raw, [b], i) {
      assert raw[i..i + 1] == [s[i - |a|]];
    }
    FindIs(raw, [b], |a|, |a| + |s|);
  }

  lemma TrailerStable(b: Bytes, more: Bytes, from: nat)
    requires ScanTrailer(b, from).Complete?
    ensures ScanTrailer(b + more, from) == ScanTrailer(b, from)
  {
    FindStable(b, more, CHECKSUM, from);
    FindStable(b, more, [SOH], Find(b, CHECKSUM, from).value + 4);
  }

  lemma ScanStable(b: Bytes, more: Bytes)
    requires !ScanFrame(b).NeedMore?
    ensures ScanFrame(b + more) == ScanFrame(b)
  {
    hide ScanTrailer, Find, ParseUnsigned;
    var soh1 := Find(b, [SOH], 0).value;
    FindStable(b, more, [SOH], 0);
    assert (b + more)[soh1 + 1..soh1 + 3] == b[soh1 + 1..soh1 + 3];
    if b[soh1 + 1..soh1 + 3] == LENGTH {
      FindStable(b, more, [SOH], soh1 + 3);
      var soh2 := Find(b, [SOH], soh1 + 3).value;
      assert (b + more)[soh1 + 3..soh2] == b[soh1 + 3..soh2];
      var length := ParseUnsigned(b[soh1 + 3..soh2], LENGTH_LIMIT);
      if length.Some? {
        TrailerOutcome(b, SearchFrom(soh2 + 1, length.value));
        TrailerStable(b, more, SearchFrom(soh2 + 1, length.value));
      }
    }
  }

  lemma TrailerOutcome(b: Bytes, from: nat)
    ensures !ScanTrailer(b, from).Garbled?
  {
  }

  lemma Middle(a: Bytes, b: Bytes, c: Bytes)
    ensures (a + b + c)[|a|..|a| + |b|] == b
  {
  }

  lemma SplitJoin(a: Bytes, b: Bytes, k: nat)
    requires k <= |a|
    ensures (a + b)[..k] == a[..k] && (a + b)[k..] == a[k..] + b
  {
  }

  lemma {:induction false} FrameStable(buf: Bytes, more: Bytes)
    requires Extract(buf).Frame?
    ensures Extract(buf + more) == Frame(Extract(buf).bytes, Extract(buf).rest + more)
    decreases |buf|
  {
    hide ScanFrame;
    var start := Find(buf, BEGIN, 0).value;
    FindStable(buf, more, BEGIN, 0);
    var b := buf[start..];
    SplitJoin(buf, more, start);
    ScanStable(b, more);
    if ScanFrame(b).Garbled? {
      SplitJoin(b, more, 2);
      FrameStable(b[2..], more);
    } else {
      ScanBounds(b);
      SplitJoin(b, more, ScanFrame(b).end);
    }
  }

  // ----- bytes that were skipped never matter again -----

  lemma SliceOfTail(s: Bytes, off: nat, k: nat, n: nat)
    requires off <= |s| && k + n <= |s| - off
    ensures s[off..][k..k + n] == s[off + k..off + k + n] && s[off..][k + n..] == s[off + k + n..]
  {
  }

  lemma OccursInTail(buf: Bytes, off: nat, i: nat)
    requires off <= i && off <= |buf|
    ensures Occurs(buf, BEGIN, i) <==> Occurs(buf[off..], BEGIN, i - off)
  {
    if i + 2 <= |buf| {
      SliceOfTail(buf, off, i - off, 2);
    }
  }

  /** Skipping bytes in which nothing begins shifts the first beginning. */
  lemma {:induction false} FindInTail(buf: Bytes, off: nat)
    requires off <= |buf| && forall i: nat | i < off :: !Occurs(buf, BEGIN, i)
    ensures var (r, t) := (Find(buf, BEGIN, 0), Find(buf[off..], BEGIN, 0));
            if r.Some? then off <= r.value <= |buf| && t == Some(r.value - off) else t.None?
  {
    hide Find;
    var (r, tail) := (Find(buf, BEGIN, 0), buf[off..]);
    forall i: nat ensures Occurs(buf, BEGIN, i + off) <==> Occurs(tail, BEGIN, i) {
      OccursInTail(buf, off, i + off);
    }
    if r.Some? {
      OccursInTail(buf, off, r.value);
      FindIs(tail, BEGIN, 0, r.value - off);
    } else {
      FindIsNone(tail, BEGIN, 0);
    }
  }

  /** Extraction only depends on the buffer from its first "8=" on, or on a last "8". */
  lemma {:induction false} ExtractSkips(buf: Bytes, off: nat)
    requires off <= |buf| && forall i: nat | i < off :: !Occurs(buf, BEGIN, i)
    requires off == |buf| ==> KeptTail(buf) == []
    ensures Extract(buf) == Extract(buf[off..])
  {
    hide Extract, Find, ScanFrame, Occurs, KeptTail;
    var tail := buf[off..];
    FindInTail(buf, off);
    var r := Find(buf, BEGIN, 0);
    ExtractUnfolds(buf);
    ExtractUnfolds(tail);
    if r.Some? {
      TailOfTail(buf, off, r.value - off);
    } else {
      KeptTailOfTail(buf, off);
    }
  }

  lemma TailOfTail(s: Bytes, off: nat, k: nat)
    requires off + k <= |s|
    ensures s[off..][k..] == s[off + k..]
  {
  }

  lemma KeptTailOfTail(buf: Bytes, off: nat)
    requires off <= |buf| && (off == |buf| ==> KeptTail(buf) == [])
    ensures KeptTail(buf[off..]) == KeptTail(buf)
  {
  }

  lemma ExtractUnfolds(buf: Bytes)
    ensures var start := Find(buf, BEGIN, 0);
            if start.None? then Extract(buf) == Incomplete(KeptTail(buf))
            else
              var b := buf[start.value..];
              match ScanFrame(b)
              case NeedMore => Extract(buf) == Incomplete(b)
              case Garbled => |b| >= 2 && Extract(buf) == Extract(b[2..])
              case Complete(end) => 2 <= end <= |b| && b[end - 1] == SOH && Extract(buf) == Frame(b[..end], b[end..])
  {
    hide ScanFrame, Find;
    var start := Find(buf, BEGIN, 0);
    if start.Some? && ScanFrame(buf[start.value..]).Complete? {
      ScanBounds(buf[start.value..]);
    }
  }

  /** What an incomplete buffer drops has no influence on what more bytes bring. */
  lemma {:induction false} IncompleteStable(buf: Bytes, more: Bytes)
    requires Extract(buf).Incomplete?
    ensures Extract(buf + more) == Extract(Extract(buf).rest + more)
    decreases |buf|
  {
    hide ScanFrame, Find;
    if Find(buf, BEGIN, 0).None? {
      var off := |buf| - |KeptTail(buf)|;
      forall i: nat | i < off ensures !Occurs(buf + more, BEGIN, i) {
        if i + 2 <= |buf| {
          assert (buf + more)[i..i + 2] == buf[i..i + 2];
          assert !Occurs(buf, BEGIN, i);
        } else {
          assert (buf + more)[i] == buf[|buf| - 1];
        }
      }
      assert (buf + more)[off..] == KeptTail(buf) + more;
      ExtractSkips(buf + more, off);
    } else {
      var start := Find(buf, BEGIN, 0).value;
      var b := buf[start..];
      FindStable(buf, more, BEGIN, 0);
      assert (buf + more)[start..] == b + more;
      if ScanFrame(b).Garbled? {
        ScanStable(b, more);
        assert (b + more)[2..] == b[2..] + more;
        IncompleteStable(b[2..], more);
      } else {
        ExtractSkips(buf + more, start);
      }
    }
  }

  // ----- the whole stream -----

  /** Draining a buffer and then reading on is draining the longer buffer. */
  lemma {:induction false} FramesJoin(buf: Bytes, more: Bytes)
    ensures Frames(buf + more) == (Frames(buf).0 + Frames(Frames(buf).1 + more).0, Frames(Frames(buf).1 + more).1)
    decreases |buf|
  {
    hide Extract;
    match Extract(buf)
    case Incomplete(rest) =>
      IncompleteStable(buf, more);
      assert Frames(buf + more) == Frames(rest + more);
      assert [] + Frames(rest + more).0 == Frames(rest + more).0;
    case Frame(f, rest) =>
      FrameStable(buf, more);
      FramesJoin(rest, more);
      var last := Frames(rest).1;
      assert [f] + (Frames(rest).0 + Frames(last + more).0) == Frames(buf).0 + Frames(last + more).0;
  }

  function Concat(chunks: seq<Bytes>): Bytes {
    if chunks == [] then [] else chunks[0] + Concat(chunks[1..])
  }

  lemma {:induction false} ConcatSnoc(chunks: seq<Bytes>, last: Bytes)
    ensures Concat(chunks + [last]) == Concat(chunks) + last
  {
    if chunks == [] {
      assert chunks + [last] == [last] && [last][1..] == [];
    } else {
      assert (chunks + [last])[1..] == chunks[1..] + [last];
      ConcatSnoc(chunks[1..], last);
    }
  }

  /** Frames are disjoint substrings of the stream, in order, each from an "8=" to an SOH. */
  ghost predicate Carved(buf: Bytes, frames: seq<Bytes>)
    decreases |frames|
  {
    frames != [] ==>
      var f := frames[0];
      && 2 <= |f| && f[..2] == BEGIN && f[|f| - 1] == SOH
      && exists at: nat :: Occurs(buf, f, at) && Carved(buf[at + |f|..], frames[1..])
  }

  /** A frame lies in the buffer, and what remains is exactly what follows it. */
  lemma {:induction false} ExtractCarves(buf: Bytes) returns (at: nat)
    requires Extract(buf).Frame?
    ensures var f := Extract(buf).bytes;
            && Occurs(buf, f, at) && Extract(buf).rest == buf[at + |f|..]
            && 2 <= |f| && f[..2] == BEGIN && f[|f| - 1] == SOH
    decreases |buf|
  {
    hide Extract, ScanFrame, Find;
    ExtractUnfolds(buf);
    var start := Find(buf, BEGIN, 0).value;
    var b := buf[start..];
    if ScanFrame(b).Garbled? {
      SliceOfTail(buf, start, 2, 0);
      var k := ExtractCarves(b[2..]);
      at := start + 2 + k;
      SliceOfTail(buf, start + 2, k, |Extract(buf).bytes|);
    } else {
      at := start;
      var end := ScanFrame(b).end;
      SliceOfTail(buf, start, 0, end);
      SliceOfTail(buf, start, 0, 2);
      assert b[..end][..2] == b[0..2];
    }
  }

  lemma {:induction false} FramesAreCarved(buf: Bytes)
    ensures Carved(buf, Frames(buf).0)
    decreases |buf|
  {
    hide Extract;
    if Extract(buf).Frame? {
      var at := ExtractCarves(buf);
      FramesAreCarved(Extract(buf).rest);
      assert Frames(buf).0[1..] == Frames(Extract(buf).rest).0;
      assert Occurs(buf, Extract(buf).bytes, at) && Carved(buf[at + |Extract(buf).bytes|..], Frames(buf).0[1..]);
    }
  }

  // ----- the reader -----

  /** Examine the bytes behind an "8=": BodyLength, the jump over the body, the checksum field. */
  method ScanBuffer(buf: Bytes) returns (scan: Scan)
    ensures scan == ScanFrame(buf)
  {
    hide Find, ParseUnsigned;
    var soh1 := Find(buf, [SOH], 0);
    if soh1.None? {
      return NeedMore;
    }
    var afterBegin := soh1.value + 1;
    if |buf| < afterBegin + 2 {
      return NeedMore;
    }
    if buf[afterBegin..afterBegin + 2] != LENGTH {
      return Garbled;
    }
    var lengthStart := afterBegin + 2;
    var soh2 := Find(buf, [SOH], lengthStart);
    if soh2.None? {
      return NeedMore;
    }
    var length := ParseUnsigned(buf[lengthStart..soh2.value], LENGTH_LIMIT);
    if length.None? {
      return Garbled;
    }
    var from := SearchFrom(soh2.value + 1, length.value);
    if from >= |buf| {
      return NeedMore;
    }
    var checksum := Find(buf, CHECKSUM, from);
    if checksum.None? {
      return NeedMore;
    }
    var end := Find(buf, [SOH], checksum.value + 4);
    if end.None? {
      return NeedMore;
    }
    return Complete(end.value + 1);
  }

  /** The receive buffer of a connection. */
  class Receiver {
    var buf: Bytes

    constructor (leftover: Bytes)
      ensures buf == leftover
    {
      buf := leftover;
    }

    /** Consume the next frame and everything before it. Terminates on any bytes. */
    method ExtractFrame() returns (frame: Option<Bytes>)
      modifies this
      ensures match frame
              case Some(f) => Extract(old(buf)) == Frame(f, buf)
              case None => Extract(old(buf)) == Incomplete(buf)
    {
      hide Find, ScanFrame;
      while true
        invariant Extract(buf) == Extract(old(buf))
        decreases |buf|
      {
        var start := Find(buf, BEGIN, 0);
        if start.None? {
          var keep := if buf != [] && buf[|buf| - 1] == 56 then 1 else 0;
          buf := buf[|buf| - keep..];
          return None;
        }
        buf := buf[start.value..];
        var scan := ScanBuffer(buf);
        match scan {
          case NeedMore =>
            return None;
          case Garbled =>
            buf := buf[2..];
          case Complete(end) =>
            ScanBounds(buf);
            var f := buf[..end];
            buf := buf[end..];
            return Some(f);
        }
      }
    }

    /** The read task: drain the buffer, read more, until the stream ends. */
    method ReadAll(chunks: seq<Bytes>) returns (frames: seq<Bytes>)
      modifies this
      ensures (frames, buf) == Frames(old(buf) + Concat(chunks))
    {
      hide Frames, Extract;
      frames := Drain();
      assert old(buf) + Concat([]) == old(buf);
      for n := 0 to |chunks|
        invariant (frames, buf) == Frames(old(buf) + Concat(chunks[..n]))
      {
        ghost var stream := old(buf) + Concat(chunks[..n]);
        FramesJoin(stream, chunks[n]);
        ConcatSnoc(chunks[..n], chunks[n]);
        assert chunks[..n] + [chunks[n]] == chunks[..n + 1];
        assert stream + chunks[n] == old(buf) + Concat(chunks[..n + 1]);
        buf := buf + chunks[n];
        var more := Drain();
        frames := frames + more;
      }
      assert chunks[..|chunks|] == chunks;
    }

    method Drain() returns (frames: seq<Bytes>)
      modifies this
      ensures (frames, buf) == Frames(old(buf))
    {
      hide Extract;
      frames := [];
      assert frames + Frames(buf).0 == Frames(buf).0;
      while true
        invariant Frames(old(buf)) == (frames + Frames(buf).0, Frames(buf).1)
        decreases |buf|
      {
        ghost var was := buf;
        var next := ExtractFrame();
        if next.None? {
          assert frames + Frames(was).0 == frames;
          return;
        }
        assert Frames(was) == ([next.value] + Frames(buf).0, Frames(buf).1);
        assert frames + Frames(was).0 == frames + [next.value] + Frames(buf).0;
        frames := frames + [next.value];
      }
    }
  }

  /** Chunk invariance: however a stream is split into reads, a receiver yields the frames of the whole
      stream and ends with the same remainder; so any two splits agree. */
  lemma {:induction false} ChunkInvariance(buf: Bytes, a: seq<Bytes>, b: seq<Bytes>)
    requires Concat(a) == Concat(b)
    ensures ReadSpec(buf, a) == ReadSpec(buf, b) == Frames(buf + Concat(a))
  {
    ReadSpecIsWhole(buf, a);
    ReadSpecIsWhole(buf, b);
  }

  /** Reading chunk by chunk: drain, append the next chunk, drain again. */
  function ReadSpec(buf: Bytes, chunks: seq<Bytes>): (seq<Bytes>, Bytes)
    decreases |chunks|
  {
    var (frames, rest) := Frames(buf);
    if chunks == [] then (frames, rest)
    else
      var (more, last) := ReadSpec(rest + chunks[0], chunks[1..]);
      (frames + more, last)
  }

  lemma {:induction false} ReadSpecIsWhole(buf: Bytes, chunks: seq<Bytes>)
    ensures ReadSpec(buf, chunks) == Frames(buf + Concat(chunks))
    decreases |chunks|
  {
    hide Frames;
    if chunks == [] {
      assert buf + Concat(chunks) == buf;
    } else {
      var rest := Frames(buf).1;
      ReadSpecIsWhole(rest + chunks[0], chunks[1..]);
      assert rest + chunks[0] + Concat(chunks[1..]) == rest + Concat(chunks);
      FramesJoin(buf, Concat(chunks));
    }
  }
}

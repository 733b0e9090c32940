/**
 Printing and parsing are inverse, and the framer recovers exactly what was printed.
 */
module CodecRoundTrip {
  import opened Messages
  import opened Bytes
  import opened Framer
  import opened Codec

  // ----- one field -----

  /** A value the parser will read back: as long as announced, or free of SOH. */
  predicate Framed(pending: Option<(int, nat)>, f: Field) {
    if pending.Some? && pending.value.0 == f.tag then |f.value| == pending.value.1 else SOH !in f.value
  }

  predicate TagInRange(f: Field) { -TAG_LIMIT <= f.tag < TAG_LIMIT }

  /** The tag of a printed field, wherever it stands. */
  lemma TagPiece(a: Bytes, f: Field, c: Bytes)
    ensures var raw := a + EncodeField(f) + c;
            var eq := |a| + |SignedDecimal(f.tag)|;
            eq < |raw| && raw[|a|..eq] == SignedDecimal(f.tag) && Find(raw, [EQUALS], |a|) == Some(eq)
  {
    hide Find, SignedDecimal;
    var tag := SignedDecimal(f.tag);
    assert a + EncodeField(f) + c == a + tag + [EQUALS] + (f.value + [SOH] + c);
    FindByte(a, tag, EQUALS, f.value + [SOH] + c);
    assert a + EncodeField(f) + c == a + tag + ([EQUALS] + f.value + [SOH] + c);
    Middle(a, tag, [EQUALS] + f.value + [SOH] + c);
  }

  /** The value of a printed field, wherever it stands. */
  lemma ValuePiece(a: Bytes, f: Field, c: Bytes)
    ensures var raw := a + EncodeField(f) + c;
            var start := |a| + |SignedDecimal(f.tag)| + 1;
            var end := start + |f.value|;
            && |raw| > end && |a| + |EncodeField(f)| == end + 1 && raw[start..end] == f.value && raw[end] == SOH
            && (SOH !in f.value ==> Find(raw, [SOH], start) == Some(end))
  {
    hide Find, SignedDecimal;
    var front := a + SignedDecimal(f.tag) + [EQUALS];
    assert a + EncodeField(f) + c == front + f.value + [SOH] + c;
    assert front + f.value + [SOH] + c == front + f.value + ([SOH] + c);
    Middle(front, f.value, [SOH] + c);
    if SOH !in f.value {
      FindByte(front, f.value, SOH, c);
    }
  }

  /** The parser reads a printed field back, wherever it stands. */
  lemma ReadBack(a: Bytes, f: Field, c: Bytes, pending: Option<(int, nat)>)
    requires TagInRange(f) && Framed(pending, f)
    ensures ReadField(a + EncodeField(f) + c, |a|, pending) == Ok((f, |a| + |EncodeField(f)|))
  {
    hide Find, SignedDecimal, ParseSigned, EncodeField;
    TagPiece(a, f, c);
    ValuePiece(a, f, c);
    ParseSignedDecimal(f.tag);
  }

  // ----- all fields -----

  /** Routing a list of fields that were read one after the other. */
  function AcceptAll(p: Progress, fs: seq<Field>): Result<Progress>
    decreases |fs|
  {
    if fs == [] then Ok(p)
    else
      match Accept(p, fs[0], p.pos + |EncodeField(fs[0])|)
      case Err(e) => Err(e)
      case Ok(q) => AcceptAll(q, fs[1..])
  }

  ghost predicate AllFramed(pending: Option<(int, nat)>, fs: seq<Field>)
    decreases |fs|
  {
    fs != [] ==> TagInRange(fs[0]) && Framed(pending, fs[0]) && AllFramed(Announces(fs[0]), fs[1..])
  }

  lemma {:induction false} ParsesAsFields(a: Bytes, fs: seq<Field>, p: Progress)
    requires AllFramed(p.pending, fs) && p.pos == |a|
    ensures ParseFields(a + Encode(fs), p) == AcceptAll(p, fs)
    decreases |fs|
  {
    hide ReadField, EncodeField;
    var raw := a + Encode(fs);
    if fs == [] {
      assert raw == a;
    } else {
      var c := Encode(fs[1..]);
      assert raw == a + EncodeField(fs[0]) + c;
      ReadBack(a, fs[0], c, p.pending);
      var next := Accept(p, fs[0], |a| + |EncodeField(fs[0])|);
      if next.Ok? {
        assert a + EncodeField(fs[0]) + Encode(fs[1..]) == raw;
        ParsesAsFields(a + EncodeField(fs[0]), fs[1..], next.value);
      }
    }
  }

  lemma {:induction false} AcceptAllJoin(p: Progress, a: seq<Field>, b: seq<Field>)
    requires AcceptAll(p, a).Ok?
    ensures AcceptAll(p, a + b) == AcceptAll(AcceptAll(p, a).value, b)
    decreases |a|
  {
    hide Accept, EncodeField;
    if a == [] {
      assert a + b == b;
    } else {
      assert (a + b)[1..] == a[1..] + b;
      AcceptAllJoin(Accept(p, a[0], p.pos + |EncodeField(a[0])|).value, a[1..], b);
    }
  }

  lemma {:induction false} EncodeJoin(a: seq<Field>, b: seq<Field>)
    ensures Encode(a + b) == Encode(a) + Encode(b)
  {
    hide EncodeField;
    if a == [] {
      assert a + b == b;
    } else {
      assert (a + b)[1..] == a[1..] + b;
      EncodeJoin(a[1..], b);
    }
  }

  // ----- the sections of a printed message -----

  /** Header fields behind the first three, met while still in the header. */
  lemma {:induction false} AcceptHeader(p: Progress, fs: seq<Field>)
    requires p.section == 0 && p.index >= 3 && forall j | 0 <= j < |fs| :: IsHeaderTag(fs[j].tag)
    ensures var r := AcceptAll(p, fs);
            && r.Ok? && r.value.section == 0 && r.value.index >= 3 && r.value.pos == p.pos + |Encode(fs)|
            && r.value.checksumStart == p.checksumStart && r.value.msg == p.msg.(header := p.msg.header + fs)
    decreases |fs|
  {
    hide EncodeField, Announces;
    if fs == [] {
      assert p.msg.header + fs == p.msg.header;
    } else {
      AcceptHeader(Accept(p, fs[0], p.pos + |EncodeField(fs[0])|).value, fs[1..]);
      assert p.msg.header + fs == p.msg.header + [fs[0]] + fs[1..];
    }
  }

  predicate IsBodyTag(tag: int) { !IsHeaderTag(tag) && !IsTrailerTag(tag) }

  lemma {:induction false} AcceptBody(p: Progress, fs: seq<Field>)
    requires p.section <= 1 && p.index >= 3 && forall j | 0 <= j < |fs| :: IsBodyTag(fs[j].tag)
    ensures var r := AcceptAll(p, fs);
            && r.Ok? && r.value.section <= 1 && r.value.index >= 3 && r.value.pos == p.pos + |Encode(fs)|
            && r.value.checksumStart == p.checksumStart && r.value.msg == p.msg.(body := p.msg.body + fs)
    decreases |fs|
  {
    hide EncodeField, Announces;
    if fs == [] {
      assert p.msg.body + fs == p.msg.body;
    } else {
      AcceptBody(Accept(p, fs[0], p.pos + |EncodeField(fs[0])|).value, fs[1..]);
      assert p.msg.body + fs == p.msg.body + [fs[0]] + fs[1..];
    }
  }

  lemma {:induction false} AcceptTrailer(p: Progress, fs: seq<Field>)
    requires p.index >= 3 && forall j | 0 <= j < |fs| :: IsTrailerTag(fs[j].tag) && fs[j].tag != 10
    ensures var r := AcceptAll(p, fs);
            && r.Ok? && r.value.index >= 3 && r.value.pos == p.pos + |Encode(fs)|
            && r.value.checksumStart == p.checksumStart && r.value.msg == p.msg.(trailer := p.msg.trailer + fs)
    decreases |fs|
  {
    hide EncodeField, Announces;
    if fs == [] {
      assert p.msg.trailer + fs == p.msg.trailer;
    } else {
      AcceptTrailer(Accept(p, fs[0], p.pos + |EncodeField(fs[0])|).value, fs[1..]);
      assert p.msg.trailer + fs == p.msg.trailer + [fs[0]] + fs[1..];
    }
  }

  // ----- sorting and filtering -----

  ghost predicate Sorted(fs: seq<Field>, descending: bool) {
    forall j, k | 0 <= j && k == j + 1 && k < |fs| :: Before(fs[j], fs[k], descending)
  }

  lemma {:induction false} InsertSorts(f: Field, fs: seq<Field>, descending: bool)
    requires Sorted(fs, descending)
    ensures var r := Insert(f, fs, descending);
            Sorted(r, descending) && r[0] == (if fs == [] || Before(f, fs[0], descending) then f else fs[0])
  {
    if fs != [] && !Before(f, fs[0], descending) {
      assert Sorted(fs[1..], descending);
      InsertSorts(f, fs[1..], descending);
    }
  }

  lemma {:induction false} InsertAdds(f: Field, fs: seq<Field>, descending: bool)
    ensures multiset(Insert(f, fs, descending)) == multiset([f]) + multiset(fs)
  {
    if fs != [] && !Before(f, fs[0], descending) {
      InsertAdds(f, fs[1..], descending);
      assert fs == [fs[0]] + fs[1..];
    }
  }

  /** The fields with a given tag, in order. */
  function Tagged(fs: seq<Field>, tag: int): seq<Field> {
    if fs == [] then []
    else if fs[0].tag == tag then [fs[0]] + Tagged(fs[1..], tag)
    else Tagged(fs[1..], tag)
  }

  /** The printed order is sorted and a permutation. */
  lemma {:induction false} SortSorts(fs: seq<Field>, descending: bool)
    ensures Sorted(Sort(fs, descending), descending) && multiset(Sort(fs, descending)) == multiset(fs)
  {
    if fs != [] {
      SortSorts(fs[1..], descending);
      InsertSorts(fs[0], Sort(fs[1..], descending), descending);
      InsertAdds(fs[0], Sort(fs[1..], descending), descending);
      assert fs == [fs[0]] + fs[1..];
    }
  }

  lemma {:induction false} InsertIsStable(f: Field, fs: seq<Field>, descending: bool, tag: int)
    ensures Tagged(Insert(f, fs, descending), tag) == (if f.tag == tag then [f] else []) + Tagged(fs, tag)
  {
    var r := Insert(f, fs, descending);
    if r == [f] + fs {
      assert r[1..] == fs;
    } else {
      InsertIsStable(f, fs[1..], descending, tag);
      assert r[0] == fs[0] && r[1..] == Insert(f, fs[1..], descending);
    }
  }

  /** Fields with the same tag are printed in the order they were given. */
  lemma {:induction false} SortIsStable(fs: seq<Field>, descending: bool, tag: int)
    ensures Tagged(Sort(fs, descending), tag) == Tagged(fs, tag)
  {
    if fs != [] {
      SortIsStable(fs[1..], descending, tag);
      InsertIsStable(fs[0], Sort(fs[1..], descending), descending, tag);
    }
  }

  /** Sorting moves nothing that is sorted already. */
  lemma {:induction false} SortKeepsSorted(fs: seq<Field>, descending: bool)
    requires Sorted(fs, descending)
    ensures Sort(fs, descending) == fs
  {
    if fs != [] {
      assert Sorted(fs[1..], descending);
      SortKeepsSorted(fs[1..], descending);
      assert fs == [fs[0]] + fs[1..];
    }
  }

  lemma {:induction false} WithoutMembers(fs: seq<Field>, tags: set<int>)
    ensures forall f | f in Without(fs, tags) :: f in fs && f.tag !in tags
  {
    if fs != [] {
      WithoutMembers(fs[1..], tags);
    }
  }

  lemma {:induction false} WithoutKeeps(fs: seq<Field>, tags: set<int>)
    requires forall f | f in fs :: f.tag !in tags
    ensures Without(fs, tags) == fs
  {
    if fs != [] {
      WithoutKeeps(fs[1..], tags);
      assert fs == [fs[0]] + fs[1..];
    }
  }

  lemma {:induction false} WithoutJoin(a: seq<Field>, b: seq<Field>, tags: set<int>)
    ensures Without(a + b, tags) == Without(a, tags) + Without(b, tags)
  {
    if a == [] {
      assert a + b == b;
    } else {
      assert (a + b)[1..] == a[1..] + b;
      WithoutJoin(a[1..], b, tags);
    }
  }

  /** The fields printed between the leading three and the body, and those behind the body. */
  lemma PrintedMembers(m: Message)
    ensures forall f | f in PrintedHeader(m) :: f in m.header && f.tag !in {8, 9, 35}
    ensures forall f | f in PrintedTrailer(m) :: f in m.trailer && f.tag != 10
  {
    var h, t := Without(m.header, {8, 9, 35}), Without(m.trailer, {10});
    WithoutMembers(m.header, {8, 9, 35});
    WithoutMembers(m.trailer, {10});
    SortSorts(h, false);
    SortSorts(t, true);
    assert forall f | f in Sort(h, false) :: f in multiset(Sort(h, false));
    assert forall f | f in Sort(t, true) :: f in multiset(Sort(t, true));
  }

  // ----- the round trip -----

  /** Every field sits in the section of its tag, a MsgType is present, and values contain SOH only
      where the preceding Length field announces exactly that many bytes. */
  ghost predicate WellFormed(m: Message) {
    && (forall f | f in m.header :: IsHeaderTag(f.tag))
    && (forall f | f in m.body :: IsBodyTag(f.tag) && TagInRange(f))
    && (forall f | f in m.trailer :: IsTrailerTag(f.tag))
    && GetRaw(m.header, 35).Some?
    && SOH !in BeginString(m)
    && AllFramed(None, Inner(m))
    && |Encode(Inner(m))| < LENGTH_LIMIT
  }

  /** The message as it comes back: same body, header and trailer in canonical order, with the computed
      BodyLength and CheckSum. */
  function Canonical(m: Message): Message {
    Message(LeadFields(m) + TypeField(m) + PrintedHeader(m), m.body, PrintedTrailer(m) + [ChecksumField(m)], None)
  }

  function AllFields(m: Message): seq<Field> {
    LeadFields(m) + Inner(m) + [ChecksumField(m)]
  }

  lemma PrintsAllFields(m: Message)
    ensures ToBytes(m) == Encode(AllFields(m))
  {
    hide LeadFields, Inner, ChecksumField, EncodeField;
    EncodeJoin(LeadFields(m), Inner(m));
    EncodeJoin(LeadFields(m) + Inner(m), [ChecksumField(m)]);
    EncodeOne(ChecksumField(m));
  }

  lemma EncodeOne(f: Field)
    ensures Encode([f]) == EncodeField(f)
  {
    assert Encode([f][1..]) == [];
  }

  lemma {:induction false} AllFramedSnoc(pending: Option<(int, nat)>, fs: seq<Field>, f: Field)
    requires AllFramed(pending, fs) && TagInRange(f) && SOH !in f.value
    requires forall t :: DataTag(t) != Some(f.tag)
    requires pending.Some? ==> pending.value.0 != f.tag
    ensures AllFramed(pending, fs + [f])
    decreases |fs|
  {
    hide DataTag;
    if fs == [] {
      assert ([] + [f])[1..] == [];
    } else {
      assert (fs + [f])[1..] == fs[1..] + [f];
      AllFramedSnoc(Announces(fs[0]), fs[1..], f);
    }
  }

  lemma DigitsAreFramed(s: Bytes)
    requires AllDigits(s)
    ensures SOH !in s
  {
  }

  /** A field without SOH that announces nothing can precede any framed fields. */
  lemma {:induction false} PrependFramed(f: Field, fs: seq<Field>)
    requires TagInRange(f) && SOH !in f.value && DataTag(f.tag).None? && AllFramed(None, fs)
    ensures AllFramed(None, [f] + fs)
  {
    assert ([f] + fs)[1..] == fs;
  }

  lemma {:induction false} AllFieldsAreFramed(m: Message)
    requires WellFormed(m)
    ensures AllFramed(None, AllFields(m))
  {
    hide Inner, Encode, BeginString, ChecksumField, Decimal, AllFramed;
    var length := Field(9, Decimal(|Encode(Inner(m))|));
    DigitsAreFramed(length.value);
    ChecksumIsDigits(m);
    DigitsAreFramed(ChecksumField(m).value);
    AllFramedSnoc(None, Inner(m), ChecksumField(m));
    var rest := Inner(m) + [ChecksumField(m)];
    PrependFramed(length, rest);
    PrependFramed(Field(8, BeginString(m)), [length] + rest);
    assert AllFields(m) == [Field(8, BeginString(m))] + ([length] + rest);
  }

  lemma ChecksumIsDigits(m: Message)
    ensures ChecksumField(m).tag == 10 && AllDigits(ChecksumField(m).value)
    ensures ParseUnsigned(ChecksumField(m).value, CHECKSUM_LIMIT) ==
            Some(Checksum(Encode(LeadFields(m)) + Encode(Inner(m))))
  {
    hide Encode, LeadFields, Inner, Sum;
    var n := Checksum(Encode(LeadFields(m)) + Encode(Inner(m)));
    ThreeDigitsParse(n);
  }

  lemma ThreeDigitsParse(n: nat)
    requires n < CHECKSUM_LIMIT
    ensures ParseUnsigned(ThreeDigits(n), CHECKSUM_LIMIT) == Some(n)
  {
    var d := Decimal(n);
    ValueOfDecimal(n);
    if |d| < 3 {
      ValueIgnoresZeros(3 - |d|, d);
    }
    assert IsDigit(ThreeDigits(n)[0]);
  }

  /** Routing header, body and trailer fields in this order fills the three sections. */
  lemma {:induction false} AcceptSections(p: Progress, h: seq<Field>, b: seq<Field>, t: seq<Field>)
    requires p.section == 0 && p.index >= 3 && forall f | f in h :: IsHeaderTag(f.tag)
    requires forall f | f in b :: IsBodyTag(f.tag)
    requires forall f | f in t :: IsTrailerTag(f.tag) && f.tag != 10
    ensures var r := AcceptAll(p, h + b + t);
            && r.Ok? && r.value.index >= 3 && r.value.pos == p.pos + |Encode(h + b + t)|
            && r.value.msg == Message(p.msg.header + h, p.msg.body + b, p.msg.trailer + t, p.msg.structureError)
  {
    hide Accept, EncodeField;
    AcceptHeader(p, h);
    var p1 := AcceptAll(p, h).value;
    AcceptBody(p1, b);
    AcceptTrailer(AcceptAll(p1, b).value, t);
    AcceptAllJoin(p, h, b);
    AcceptAllJoin(p, h + b, t);
    EncodeJoin(h, b);
    EncodeJoin(h + b, t);
  }

  /** What routing the printed fields amounts to. */
  lemma {:induction false} AcceptsCanonical(m: Message)
    requires WellFormed(m)
    ensures var r := AcceptAll(START, AllFields(m));
            && r.Ok? && r.value.msg == Canonical(m)
            && r.value.checksumStart == Some(|Encode(LeadFields(m))| + |Encode(Inner(m))|)
  {
    hide AcceptAll, Encode, LeadFields, TypeField, PrintedHeader, PrintedTrailer, ChecksumField, IsHeaderTag, GetRaw;
    var front := LeadFields(m) + TypeField(m);
    var (h, t) := (PrintedHeader(m), PrintedTrailer(m));
    AcceptsFront(m);
    var p := AcceptAll(START, front).value;
    PrintedMembers(m);
    AcceptSections(p, h, m.body, t);
    var q := AcceptAll(p, h + m.body + t).value;
    ChecksumIsDigits(m);
    AcceptsChecksum(q, ChecksumField(m));
    AcceptAllJoin(START, front, h + m.body + t);
    AcceptAllJoin(START, front + (h + m.body + t), [ChecksumField(m)]);
    SectionsOfAll(m);
  }

  /** The sections in the order they are printed, and how long they are. */
  lemma {:induction false} SectionsOfAll(m: Message)
    ensures var (front, sections) := (LeadFields(m) + TypeField(m), PrintedHeader(m) + m.body + PrintedTrailer(m));
            && AllFields(m) == front + sections + [ChecksumField(m)]
            && |Encode(front)| + |Encode(sections)| == |Encode(LeadFields(m))| + |Encode(Inner(m))|
  {
    hide Encode, LeadFields, TypeField, PrintedHeader, PrintedTrailer, ChecksumField;
    var (front, sections) := (LeadFields(m) + TypeField(m), PrintedHeader(m) + m.body + PrintedTrailer(m));
    assert LeadFields(m) + Inner(m) == front + sections;
    EncodeJoin(front, sections);
    EncodeJoin(LeadFields(m), Inner(m));
  }

  lemma {:induction false} AcceptsChecksum(p: Progress, f: Field)
    requires p.index >= 3 && f.tag == 10
    ensures var r := AcceptAll(p, [f]);
            && r.Ok? && r.value.msg == p.msg.(trailer := p.msg.trailer + [f]) && r.value.checksumStart == Some(p.pos)
  {
    hide EncodeField, Announces;
    var q := Accept(p, f, p.pos + |EncodeField(f)|).value;
    assert AcceptAll(q, [f][1..]) == Ok(q);
  }

  /** The first three fields are 8, 9 and 35. */
  lemma {:induction false} AcceptsFront(m: Message)
    requires GetRaw(m.header, 35).Some?
    ensures var front := LeadFields(m) + TypeField(m);
            var r := AcceptAll(START, front);
            && r.Ok? && r.value.section == 0 && r.value.index == 3 && r.value.pos == |Encode(front)|
            && r.value.checksumStart.None? && r.value.msg == Message(front, [], [], None)
  {
    hide EncodeField, Announces, BeginString, Decimal, GetRaw;
    var front := LeadFields(m) + TypeField(m);
    var (a, b, d) := (front[0], front[1], front[2]);
    assert front == [a, b, d];
    var p1 := Accept(START, a, |EncodeField(a)|).value;
    var p2 := Accept(p1, b, p1.pos + |EncodeField(b)|).value;
    var p3 := Accept(p2, d, p2.pos + |EncodeField(d)|).value;
    assert [a, b, d][1..] == [b, d] && [b, d][1..] == [d] && [d][1..] == [];
    assert AcceptAll(p3, []) == Ok(p3);
    assert AcceptAll(p2, [d]) == Ok(p3);
    assert AcceptAll(p1, [b, d]) == Ok(p3);
    assert Encode([]) == [];
    assert Encode([d]) == EncodeField(d);
    assert Encode([b, d]) == EncodeField(b) + Encode([d]);
    assert Encode(front) == EncodeField(a) + Encode([b, d]);
  }

  lemma FieldEndsAt(a: Bytes, f: Field, c: Bytes)
    requires SOH !in f.value
    ensures Find(a + EncodeField(f) + c, [SOH], |a|) == Some(|a| + |EncodeField(f)| - 1)
  {
    hide Find, SignedDecimal;
    var s := SignedDecimal(f.tag) + [EQUALS] + f.value;
    assert a + EncodeField(f) + c == a + s + [SOH] + c;
    FindByte(a, s, SOH, c);
  }

  lemma {:induction false} GetRawSkips(a: seq<Field>, b: seq<Field>, tag: int)
    requires forall f | f in a :: f.tag != tag
    ensures GetRaw(a + b, tag) == GetRaw(b, tag)
  {
    if a == [] {
      assert a + b == b;
    } else {
      assert (a + b)[1..] == a[1..] + b;
      GetRawSkips(a[1..], b, tag);
    }
  }

  /** The bytes of a printed message: BeginString, BodyLength, the counted fields, CheckSum. */
  lemma PrintedPieces(m: Message, rest: Bytes) returns (f8: Field, f9: Field, inner: Bytes, f10: Field)
    ensures f8 == Field(8, BeginString(m)) && f9 == Field(9, Decimal(|inner|)) && inner == Encode(Inner(m))
    ensures f10 == ChecksumField(m) && Encode(LeadFields(m)) == EncodeField(f8) + EncodeField(f9)
    ensures ToBytes(m) + rest == [] + EncodeField(f8) + (EncodeField(f9) + inner + EncodeField(f10) + rest)
    ensures ToBytes(m) + rest == EncodeField(f8) + EncodeField(f9) + (inner + EncodeField(f10) + rest)
    ensures ToBytes(m) + rest == (EncodeField(f8) + EncodeField(f9) + inner) + EncodeField(f10) + rest
  {
    hide EncodeField, BeginString, Inner, ChecksumField, Decimal;
    inner := Encode(Inner(m));
    f8, f9, f10 := Field(8, BeginString(m)), Field(9, Decimal(|inner|)), ChecksumField(m);
    EncodeJoin([f8], [f9]);
    EncodeOne(f8);
    EncodeOne(f9);
    assert LeadFields(m) == [f8] + [f9];
  }

  /** Validation accepts the computed BodyLength and CheckSum. */
  lemma {:induction false} ValidatesPrinted(m: Message, p: Progress)
    requires WellFormed(m) && p.msg == Canonical(m)
    requires p.checksumStart == Some(|Encode(LeadFields(m))| + |Encode(Inner(m))|)
    ensures Validate(ToBytes(m), p) == Ok(Canonical(m))
  {
    hide EncodeField, BeginString, Inner, ChecksumField, Decimal, Find, ParseUnsigned, Checksum, PrintedTrailer, PrintedHeader, Encode;
    var f8, f9, inner, f10 := PrintedPieces(m, []);
    var raw := ToBytes(m);
    assert raw + [] == raw;
    DigitsAreFramed(f9.value);
    FieldEndsAt([], f8, EncodeField(f9) + inner + EncodeField(f10) + []);
    FieldEndsAt(EncodeField(f8), f9, inner + EncodeField(f10) + []);
    assert FieldEnd(raw, 0, 1) == Some(|Encode(LeadFields(m))|);
    assert GetRaw(Canonical(m).header, 9) == Some(f9.value) by { HeaderLookups(m); }
    ParseDecimal(|inner|, LENGTH_LIMIT);
    PrintedMembers(m);
    GetRawSkips(PrintedTrailer(m), [f10], 10);
    ChecksumIsDigits(m);
    assert GetRaw([f10], 10) == Some(f10.value);
    assert UpTo(raw, p.checksumStart.value) == Encode(LeadFields(m)) + inner;
  }

  /** Lookups in the canonical header. */
  lemma {:induction false} HeaderLookups(m: Message)
    ensures GetRaw(Canonical(m).header, 8) == Some(BeginString(m))
    ensures GetRaw(Canonical(m).header, 9) == Some(Decimal(|Encode(Inner(m))|))
    ensures GetRaw(m.header, 35).Some? ==> GetRaw(Canonical(m).header, 35) == GetRaw(m.header, 35)
  {
    hide BeginString, Inner, Encode, PrintedHeader;
    var h := Canonical(m).header;
    assert h[1..][0] == LeadFields(m)[1];
    GetRawSkips(LeadFields(m), TypeField(m) + PrintedHeader(m), 35);
    assert h == LeadFields(m) + (TypeField(m) + PrintedHeader(m));
  }

  /** Print/parse round trip. Every well-formed message, data fields with embedded SOH included, parses
      back with validation on, with no structure error, the same body, and header and trailer in
      canonical order with the computed BodyLength and CheckSum. */
  lemma {:induction false} PrintParseRoundTrip(m: Message)
    requires WellFormed(m)
    ensures Parse(ToBytes(m), true) == Ok(Canonical(m))
    ensures Parse(ToBytes(m), false) == Ok(Canonical(m))
  {
    hide ParseFields, AcceptAll, ToBytes, AllFields, Canonical, WellFormed, Validate;
    PrintsAllFields(m);
    AllFieldsAreFramed(m);
    ParsesAsFields([], AllFields(m), START);
    assert [] + Encode(AllFields(m)) == ToBytes(m);
    AcceptsCanonical(m);
    ValidatesPrinted(m, AcceptAll(START, AllFields(m)).value);
  }

  lemma {:induction false} ReprintsHeader(m: Message)
    ensures PrintedHeader(Canonical(m)) == PrintedHeader(m)
  {
    hide Canonical, LeadFields, TypeField, Without, Sort, Sorted;
    var (front, h) := (LeadFields(m) + TypeField(m), PrintedHeader(m));
    assert Canonical(m).header == front + h by { CanonicalSections(m); }
    PrintedMembers(m);
    SortSorts(Without(m.header, {8, 9, 35}), false);
    WithoutJoin(front, h, {8, 9, 35});
    WithoutKeeps(h, {8, 9, 35});
    LeadsAreDropped(m);
    assert [] + h == h;
    SortKeepsSorted(h, false);
  }

  lemma {:induction false} ReprintsTrailer(m: Message)
    ensures PrintedTrailer(Canonical(m)) == PrintedTrailer(m)
  {
    hide Canonical, ChecksumField, Sort, Sorted;
    assert Canonical(m).trailer == PrintedTrailer(m) + [ChecksumField(m)] by { CanonicalSections(m); }
    PrintedMembers(m);
    ChecksumIsDigits(m);
    SortSorts(Without(m.trailer, {10}), true);
    WithoutJoin(PrintedTrailer(m), [ChecksumField(m)], {10});
    WithoutKeeps(PrintedTrailer(m), {10});
    assert Without([ChecksumField(m)], {10}) == [];
    assert PrintedTrailer(m) + [] == PrintedTrailer(m);
    SortKeepsSorted(PrintedTrailer(m), true);
  }

  lemma CanonicalSections(m: Message)
    ensures Canonical(m).header == LeadFields(m) + TypeField(m) + PrintedHeader(m)
    ensures Canonical(m).body == m.body && Canonical(m).trailer == PrintedTrailer(m) + [ChecksumField(m)]
  {
  }

  /** Printing what was parsed gives identical bytes. */
  lemma {:induction false} ReprintIsIdentical(m: Message)
    requires GetRaw(m.header, 35).Some?
    ensures ToBytes(Canonical(m)) == ToBytes(m)
  {
    hide Encode, BeginString, Checksum, Decimal, ThreeDigits, Canonical, PrintedHeader, PrintedTrailer, GetRaw;
    HeaderLookups(m);
    ReprintsHeader(m);
    ReprintsTrailer(m);
    CanonicalSections(m);
    CanonicalBeginString(m);
    assert Inner(Canonical(m)) == Inner(m);
  }

  lemma CanonicalBeginString(m: Message)
    ensures BeginString(Canonical(m)) == BeginString(m)
  {
    HeaderLookups(m);
  }

  lemma {:induction false} LeadsAreDropped(m: Message)
    ensures Without(LeadFields(m) + TypeField(m), {8, 9, 35}) == []
  {
    hide BeginString, Inner, Encode, GetRaw;
    WithoutJoin(LeadFields(m), TypeField(m), {8, 9, 35});
    assert LeadFields(m) == [LeadFields(m)[0]] + [LeadFields(m)[1]];
    WithoutJoin([LeadFields(m)[0]], [LeadFields(m)[1]], {8, 9, 35});
  }

  // ----- the framer recovers what was printed -----

  lemma {:induction false} EncodeEndsInSoh(fs: seq<Field>)
    requires fs != []
    ensures Encode(fs) != [] && Encode(fs)[|Encode(fs)| - 1] == SOH
  {
    if |fs| > 1 {
      EncodeEndsInSoh(fs[1..]);
    } else {
      assert Encode(fs[1..]) == [];
    }
  }

  /** The checksum field is found exactly where BodyLength says, whatever the body contains. */
  lemma {:induction false} FindsChecksum(front: Bytes, f10: Field, rest: Bytes)
    requires front != [] && front[|front| - 1] == SOH && f10.tag == 10 && SOH !in f10.value
    ensures ScanTrailer(front + EncodeField(f10) + rest, |front| - 1) == Complete(|front| + |EncodeField(f10)|)
  {
    hide Find;
    var raw := front + EncodeField(f10) + rest;
    assert SignedDecimal(10) == [49, 48] by { assert Decimal(1) == [49]; }
    assert raw[|front| - 1..|front| + 3] == CHECKSUM;
    FindIs(raw, CHECKSUM, |front| - 1, |front| - 1);
    assert raw == (front + [49, 48, EQUALS]) + f10.value + [SOH] + rest;
    FindByte(front + [49, 48, EQUALS], f10.value, SOH, rest);
  }

  /** BeginString must not contain SOH, and the body must have a representable length. */
  ghost predicate Printable(m: Message) { SOH !in BeginString(m) && |Encode(Inner(m))| < LENGTH_LIMIT }

  lemma {:induction false} ScansPrinted(m: Message, rest: Bytes)
    requires Printable(m)
    ensures ScanFrame(ToBytes(m) + rest) == Complete(|ToBytes(m)|)
  {
    hide EncodeField, BeginString, Inner, ChecksumField, Find, ParseUnsigned, Encode, ToBytes, ScanTrailer, Decimal;
    var f8, f9, inner, f10 := PrintedPieces(m, rest);
    var raw := ToBytes(m) + rest;
    DigitsAreFramed(f9.value);
    ChecksumIsDigits(m);
    DigitsAreFramed(f10.value);
    FieldEndsAt([], f8, EncodeField(f9) + inner + EncodeField(f10) + rest);
    FieldEndsAt(EncodeField(f8), f9, inner + EncodeField(f10) + rest);
    LengthField(EncodeField(f8), |inner|, inner + EncodeField(f10) + rest);
    ParseDecimal(|inner|, LENGTH_LIMIT);
    var front := EncodeField(f8) + EncodeField(f9) + inner;
    FrontEndsInSoh(f8, f9, m);
    FindsChecksum(front, f10, rest);
  }

  lemma FrontEndsInSoh(f8: Field, f9: Field, m: Message)
    ensures var front := EncodeField(f8) + EncodeField(f9) + Encode(Inner(m));
            front != [] && front[|front| - 1] == SOH
  {
    hide Inner;
    if Inner(m) == [] {
      assert Encode(Inner(m)) == [];
    } else {
      EncodeEndsInSoh(Inner(m));
    }
  }

  /** Behind the first field stands "9=", the length in decimal, and SOH. */
  lemma LengthField(a: Bytes, n: nat, c: Bytes)
    ensures var f := Field(9, Decimal(n));
            var raw := a + EncodeField(f) + c;
            var soh2 := |a| + |EncodeField(f)| - 1;
            && |raw| >= |a| + 2 && raw[|a|..|a| + 2] == LENGTH
            && soh2 >= |a| + 2 && raw[|a| + 2..soh2] == Decimal(n) && Find(raw, [SOH], |a| + 2) == Some(soh2)
  {
    hide Find, Decimal;
    var f := Field(9, Decimal(n));
    assert SignedDecimal(9) == [57] by { NineInDecimal(); }
    assert EncodeField(f) == [57, EQUALS] + Decimal(n) + [SOH];
    var raw := a + EncodeField(f) + c;
    assert raw == (a + [57, EQUALS]) + Decimal(n) + [SOH] + c;
    DigitsAreFramed(Decimal(n));
    FindByte(a + [57, EQUALS], Decimal(n), SOH, c);
  }

  lemma NineInDecimal()
    ensures SignedDecimal(9) == [57] && SignedDecimal(8) == [56]
  {
  }

  /** The framer inverts the printer: behind a printed message it stops exactly where the message ends,
      even when a data field contains "8=" or a checksum tag. */
  lemma {:induction false} FramerInvertsPrinter(m: Message, rest: Bytes)
    requires Printable(m)
    ensures Extract(ToBytes(m) + rest) == Frame(ToBytes(m), rest)
  {
    hide EncodeField, BeginString, Inner, ChecksumField, Find, Encode, ToBytes, ScanFrame;
    var f8, f9, inner, f10 := PrintedPieces(m, rest);
    var raw := ToBytes(m) + rest;
    BeginsWithBegin(f8, EncodeField(f9) + inner + EncodeField(f10) + rest);
    FindIs(raw, BEGIN, 0, 0);
    ScansPrinted(m, rest);
    assert raw[0..] == raw;
  }

  lemma BeginsWithBegin(f8: Field, c: Bytes)
    requires f8.tag == 8
    ensures Occurs([] + EncodeField(f8) + c, BEGIN, 0)
  {
    NineInDecimal();
    assert ([] + EncodeField(f8) + c)[0..2] == BEGIN;
  }

  function PrintAll(ms: seq<Message>): seq<Bytes> {
    if ms == [] then [] else [ToBytes(ms[0])] + PrintAll(ms[1..])
  }

  lemma {:induction false} FramesOfPrinted(ms: seq<Message>)
    requires forall m | m in ms :: Printable(m)
    ensures Frames(Concat(PrintAll(ms))) == (PrintAll(ms), [])
    decreases |ms|
  {
    hide ToBytes, Extract;
    if ms == [] {
      assert Extract([]) == Incomplete([]) by { ExtractNothing(); }
    } else {
      FramesOfPrinted(ms[1..]);
      assert PrintAll(ms)[1..] == PrintAll(ms[1..]);
      FramerInvertsPrinter(ms[0], Concat(PrintAll(ms[1..])));
    }
  }

  lemma ExtractNothing()
    ensures Extract([]) == Incomplete([])
  {
  }

  /** The whole wire: however the bytes of any list of well-formed messages are cut into reads, the
      receiver yields one frame per message, and each parses to the canonical form of its message. */
  lemma {:induction false} WireDelivers(ms: seq<Message>, chunks: seq<Bytes>)
    requires (forall m | m in ms :: WellFormed(m)) && Concat(chunks) == Concat(PrintAll(ms))
    ensures var frames := ReadSpec([], chunks).0;
            |frames| == |ms| && forall j | 0 <= j < |ms| :: Parse(frames[j], true) == Ok(Canonical(ms[j]))
  {
    hide Parse, Frames, ReadSpec, WellFormed;
    forall m | m in ms ensures Printable(m) {
      WellFormedIsPrintable(m);
    }
    ReadSpecIsWhole([], chunks);
    assert [] + Concat(chunks) == Concat(chunks);
    FramesOfPrinted(ms);
    PrintAllIndex(ms);
    forall j | 0 <= j < |ms| ensures Parse(PrintAll(ms)[j], true) == Ok(Canonical(ms[j])) {
      PrintParseRoundTrip(ms[j]);
    }
  }

  lemma WellFormedIsPrintable(m: Message)
    requires WellFormed(m)
    ensures Printable(m)
  {
  }

  lemma {:induction false} PrintAllIndex(ms: seq<Message>)
    ensures |PrintAll(ms)| == |ms| && forall j | 0 <= j < |ms| :: PrintAll(ms)[j] == ToBytes(ms[j])
  {
    hide ToBytes;
    if ms != [] {
      PrintAllIndex(ms[1..]);
    }
  }
}

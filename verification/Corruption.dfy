/**
 Damaged messages: what becomes of a printed message whose declared numbers or whose bytes have been
 changed on the way.
 */
module Corruption {
  import opened Messages
  import opened Bytes
  import opened Framer
  import opened Codec
  import opened CodecRoundTrip
  import opened Checksums
  import opened CodecValidation

  // ----- the layout of printed fields -----

  /** Fields printed one after the other from `start` on. */
  function Place(start: nat, fs: seq<Field>): (r: seq<Placed>)
    ensures |r| == |fs| && forall j | 0 <= j < |fs| :: r[j].field == fs[j]
    decreases |fs|
  {
    if fs == [] then []
    else
      var next := start + |EncodeField(fs[0])|;
      [Placed(start, next, fs[0])] + Place(next, fs[1..])
  }

  lemma {:induction false} LayoutOfPrinted(a: Bytes, fs: seq<Field>, pending: Option<(int, nat)>)
    requires AllFramed(pending, fs)
    ensures Layout(a + Encode(fs), |a|, pending) == Some(Place(|a|, fs))
    decreases |fs|
  {
    hide ReadField, EncodeField, Announces;
    var raw := a + Encode(fs);
    if fs == [] {
      assert raw == a;
    } else {
      var c := Encode(fs[1..]);
      assert raw == a + EncodeField(fs[0]) + c;
      ReadBack(a, fs[0], c, pending);
      LayoutOfPrinted(a + EncodeField(fs[0]), fs[1..], Announces(fs[0]));
    }
  }

  lemma {:induction false} PlaceAt(start: nat, fs: seq<Field>, k: nat)
    requires k < |fs|
    ensures Place(start, fs)[k].start == start + |Encode(fs[..k])|
    ensures Place(start, fs)[k].end == start + |Encode(fs[..k])| + |EncodeField(fs[k])|
    decreases k
  {
    hide EncodeField;
    if k == 0 {
      assert fs[..0] == [];
    } else {
      PlaceAt(start + |EncodeField(fs[0])|, fs[1..], k - 1);
      assert fs[..k] == [fs[0]] + fs[1..][..k - 1];
      assert fs[..k][1..] == fs[1..][..k - 1];
    }
  }

  // ----- declared numbers -----

  /** A message printed with other values for BodyLength and CheckSum. */
  function Declares(m: Message, length: Bytes, sum: Bytes): seq<Field> {
    [Field(8, BeginString(m)), Field(9, length)] + Inner(m) + [Field(10, sum)]
  }

  lemma {:induction false} DeclaresIsFramed(m: Message, length: Bytes, sum: Bytes)
    requires WellFormed(m) && SOH !in length && SOH !in sum
    ensures AllFramed(None, Declares(m, length, sum))
  {
    hide Inner, Encode, BeginString, AllFramed;
    var (f8, f9, f10) := (Field(8, BeginString(m)), Field(9, length), Field(10, sum));
    AllFramedSnoc(None, Inner(m), f10);
    PrependFramed(f9, Inner(m) + [f10]);
    PrependFramed(f8, [f9] + (Inner(m) + [f10]));
    assert Declares(m, length, sum) == [f8] + ([f9] + (Inner(m) + [f10]));
  }

  lemma InnerTags(m: Message)
    requires WellFormed(m)
    ensures Inner(m) != [] && Inner(m)[0].tag == 35 && forall f | f in Inner(m) :: f.tag != 10
  {
    hide Encode, AllFramed, PrintedHeader, PrintedTrailer;
    PrintedMembers(m);
    forall f | f in Inner(m) ensures f.tag != 10 {
      assert f in TypeField(m) || f in PrintedHeader(m) || f in m.body || f in PrintedTrailer(m);
    }
  }

  /** The bytes in front of the CheckSum field. */
  function Front(m: Message, length: Bytes): Bytes {
    Encode([Field(8, BeginString(m)), Field(9, length)]) + Encode(Inner(m))
  }

  lemma {:induction false} DeclaresPieces(m: Message, length: Bytes, sum: Bytes)
    ensures Encode(Declares(m, length, sum)) == Front(m, length) + EncodeField(Field(10, sum))
    ensures |Front(m, length)| == |EncodeField(Field(8, BeginString(m)))| + |EncodeField(Field(9, length))| + |Encode(Inner(m))|
  {
    hide Inner, BeginString, EncodeField;
    var (f8, f9, f10) := (Field(8, BeginString(m)), Field(9, length), Field(10, sum));
    EncodeJoin([f8, f9] + Inner(m), [f10]);
    EncodeJoin([f8, f9], Inner(m));
    EncodeOne(f10);
    EncodeOne(f8);
    EncodeOne(f9);
    EncodeJoin([f8], [f9]);
    assert [f8] + [f9] == [f8, f9];
  }

  /** Where the fields of such a message stand. */
  lemma {:induction false} DeclaresLayout(m: Message, length: Bytes, sum: Bytes)
    requires WellFormed(m) && SOH !in length && SOH !in sum
    ensures var raw := Encode(Declares(m, length, sum));
            var layout := Layout(raw, 0, None);
            && layout.Some? && Leads(layout.value) && Parse(raw, false).Ok?
            && var (items, k) := (layout.value, |Inner(m)| + 2);
            && |items| == k + 1 && items[1].field == Field(9, length) && items[k].field == Field(10, sum)
            && IsFirst(items, k, 10) && IsLast(items, k, 10)
            && items[k].start == |Front(m, length)| && items[k].start - items[1].end == |Encode(Inner(m))|
  {
    hide Inner, Encode, BeginString, AllFramed, Layout, WellFormed, EncodeField, Parse;
    var fs := Declares(m, length, sum);
    var raw := Encode(fs);
    var (f8, f9, k) := (Field(8, BeginString(m)), Field(9, length), |Inner(m)| + 2);
    DeclaresIsFramed(m, length, sum);
    LayoutOfPrinted([], fs, None);
    assert [] + raw == raw;
    InnerTags(m);
    var items := Place(0, fs);
    assert forall j | 2 <= j < k :: fs[j] == Inner(m)[j - 2];
    PlaceAt(0, fs, 1);
    PlaceAt(0, fs, k);
    assert fs[..1] == [f8] && fs[..k] == [f8, f9] + Inner(m);
    EncodeJoin([f8, f9], Inner(m));
    EncodeOne(f8);
    DeclaresPieces(m, length, sum);
    ParsesIff(raw);
  }

  /** The declared numbers decide: a well-formed message printed with any values for BodyLength and CheckSum
      is accepted if and only if they are the length of what BodyLength counts, and the sum of all bytes
      in front of the CheckSum field, modulo 256. */
  lemma {:induction false} DeclaredNumbersDecide(m: Message, length: Bytes, sum: Bytes)
    requires WellFormed(m) && SOH !in length && SOH !in sum
    ensures Parse(Encode(Declares(m, length, sum)), true).Ok? <==>
            && ParseUnsigned(length, LENGTH_LIMIT) == Some(|Encode(Inner(m))|)
            && ParseUnsigned(sum, CHECKSUM_LIMIT) == Some(Sum(Front(m, length)) % 256)
  {
    hide Inner, Encode, BeginString, AllFramed, Layout, WellFormed, EncodeField, Parse, ParseUnsigned, Sum, Front;
    var raw := Encode(Declares(m, length, sum));
    DeclaresLayout(m, length, sum);
    DeclaresPieces(m, length, sum);
    ValidatedIff(raw);
    var (items, k) := (Layout(raw, 0, None).value, |Inner(m)| + 2);
    assert raw[..items[k].start] == Front(m, length);
    if NumbersHold(raw, items) {
      var a: nat, b: nat :| NumbersHoldAt(raw, items, a, b);
      OnlyOne(items, a, k, b, k);
    }
    if ParseUnsigned(length, LENGTH_LIMIT) == Some(|Encode(Inner(m))|) && ParseUnsigned(sum, CHECKSUM_LIMIT) == Some(Sum(Front(m, length)) % 256) {
      assert NumbersHoldAt(raw, items, k, k);
    }
  }

  /** What the printer prints is the case in which both numbers are right. */
  lemma {:induction false} PrintedDeclares(m: Message)
    ensures ToBytes(m) == Encode(Declares(m, Decimal(|Encode(Inner(m))|), ChecksumField(m).value))
    ensures Front(m, Decimal(|Encode(Inner(m))|)) == Encode(LeadFields(m)) + Encode(Inner(m))
  {
    hide Inner, BeginString, Decimal, Encode;
    PrintsAllFields(m);
  }

  /** Any other number in the CheckSum field is refused. */
  lemma {:induction false} WrongChecksumIsRefused(m: Message, n: nat)
    requires WellFormed(m) && n < CHECKSUM_LIMIT
    ensures var right := Sum(Front(m, Decimal(|Encode(Inner(m))|))) % 256;
            Parse(Encode(Declares(m, Decimal(|Encode(Inner(m))|), ThreeDigits(n))), true).Ok? <==> n == right
  {
    hide Inner, Encode, BeginString, AllFramed, Front, Sum, ParseUnsigned, Parse, Decimal, ThreeDigits, Declares;
    assert |Encode(Inner(m))| < LENGTH_LIMIT;
    DigitsAreFramed(Decimal(|Encode(Inner(m))|));
    DigitsAreFramed(ThreeDigits(n));
    DeclaredNumbersDecide(m, Decimal(|Encode(Inner(m))|), ThreeDigits(n));
    ParseDecimal(|Encode(Inner(m))|, LENGTH_LIMIT);
    ThreeDigitsParse(n);
  }

  /** Any other number in the BodyLength field is refused, even with a CheckSum to match. */
  lemma {:induction false} WrongLengthIsRefused(m: Message, n: nat)
    requires WellFormed(m) && n < LENGTH_LIMIT
    ensures var sum := ThreeDigits(Sum(Front(m, Decimal(n))) % 256);
            Parse(Encode(Declares(m, Decimal(n), sum)), true).Ok? <==> n == |Encode(Inner(m))|
  {
    hide Inner, Encode, BeginString, AllFramed, Front, Sum, ParseUnsigned, Parse, Decimal, ThreeDigits, Declares;
    var right := Sum(Front(m, Decimal(n))) % 256;
    DigitsAreFramed(Decimal(n));
    DigitsAreFramed(ThreeDigits(right));
    DeclaredNumbersDecide(m, Decimal(n), ThreeDigits(right));
    ParseDecimal(n, LENGTH_LIMIT);
    ThreeDigitsParse(right);
  }

  // ----- one changed byte -----

  /** The position of the CheckSum field in a printed message. */
  function ChecksumAt(m: Message): nat { |Encode(LeadFields(m)) + Encode(Inner(m))| }

  /** Behind the start of the CheckSum field only that field itself reads as a CheckSum. */
  lemma {:induction false} OnlyChecksumThere(front: Bytes, sum: Bytes, q: nat, pending: Option<(int, nat)>)
    requires AllDigits(sum) && |front| <= q
    requires pending.Some? ==> pending.value.0 != 10
    requires var r := ReadField(front + EncodeField(Field(10, sum)), q, pending); r.Ok? && r.value.0.tag == 10
    ensures q == |front| && ReadField(front + EncodeField(Field(10, sum)), q, pending).value.0 == Field(10, sum)
  {
    hide Find, ParseSigned, EncodeField;
    var raw := front + EncodeField(Field(10, sum));
    var eq := Find(raw, [EQUALS], q).value;
    ChecksumBytes(sum);
    assert raw == front + ([49, 48, EQUALS] + sum + [SOH]);
    assert raw[eq..eq + 1][0] == raw[eq];
    assert forall x | |front| + 3 <= x < |front| + 3 + |sum| :: raw[x] == sum[x - |front| - 3] && IsDigit(raw[x]);
    assert eq == |front| + 2;
    if q == |front| + 1 {
      assert raw[q..eq] == [48];
      ZeroIsNotTen();
    } else if q == |front| + 2 {
      assert raw[q..eq] == [];
      NothingIsNoTag();
    }
    assert q == |front|;
    assert raw + [] == raw;
    assert front + EncodeField(Field(10, sum)) + [] == raw;
    DigitsAreFramed(sum);
    ReadBack(front, Field(10, sum), [], pending);
  }

  lemma NothingIsNoTag()
    ensures ParseSigned([]).None?
  {
  }

  lemma ZeroIsNotTen()
    ensures ParseSigned([48]) == Some(0)
  {
    assert [48] == Decimal(0);
    assert SignedDecimal(0) == Decimal(0);
    ParseSignedDecimal(0);
  }

  lemma ChecksumBytes(sum: Bytes)
    ensures EncodeField(Field(10, sum)) == [49, 48, EQUALS] + sum + [SOH]
  {
    assert Decimal(1) == [49];
    assert Decimal(10) == Decimal(1) + [48];
  }

  /** Fields that start before a position, and what is known of the one that follows a field. */
  lemma {:induction false} FieldAt(raw: Bytes, pos: nat, pending: Option<(int, nat)>, k: nat) returns (before: Option<(int, nat)>)
    requires Layout(raw, pos, pending).Some? && k < |Layout(raw, pos, pending).value|
    requires pending.Some? ==> pending.value.0 != 10
    ensures var it := Layout(raw, pos, pending).value[k];
            ReadField(raw, it.start, before) == Ok((it.field, it.end)) && (before.Some? ==> before.value.0 != 10)
    decreases k
  {
    hide ReadField, Announces;
    LayoutUnfolds(raw, pos, pending);
    var items := Layout(raw, pos, pending).value;
    if k == 0 {
      before := pending;
    } else {
      AnnouncesNoChecksum(items[0].field);
      before := FieldAt(raw, items[0].end, Announces(items[0].field), k - 1);
      assert items[1..][k - 1] == items[k];
    }
  }

  lemma AnnouncesNoChecksum(f: Field)
    ensures Announces(f).Some? ==> Announces(f).value.0 != 10
  {
  }

  /** Fields follow one another, so a later one starts later. */
  lemma {:induction false} LaterStartsLater(raw: Bytes, items: seq<Placed>, j: nat, k: nat)
    requires Layout(raw, 0, None) == Some(items) && j <= k < |items|
    ensures items[j].start <= items[k].start && (items[j].start == items[k].start ==> j == k)
    decreases k
  {
    hide Layout;
    StartsAscend(raw, 0, None, k);
    if j < k {
      LaterStartsLater(raw, items, j, k - 1);
      StartsAscend(raw, 0, None, k - 1);
    }
  }

  /** One changed byte is noticed, unless it makes a CheckSum field appear ahead of the real one: then the
      first of the two is compared with the sum. */
  lemma {:induction false} ChangedByteIsNoticed(m: Message, i: nat, b: byte)
    requires i < ChecksumAt(m) && ChecksumAt(m) <= |ToBytes(m)| && b != ToBytes(m)[i]
    ensures var raw := ToBytes(m)[i := b];
            Parse(raw, true).Ok? ==>
              && Layout(raw, 0, None).Some?
              && exists j | 0 <= j < |Layout(raw, 0, None).value| ::
                   Layout(raw, 0, None).value[j].field.tag == 10 && Layout(raw, 0, None).value[j].start < ChecksumAt(m)
  {
    hide Layout, Parse, Encode, LeadFields, Inner, Sum, ReadField, EncodeField, ThreeDigits;
    var (front, sum) := (Encode(LeadFields(m)) + Encode(Inner(m)), ChecksumField(m).value);
    var raw := ToBytes(m)[i := b];
    assert raw == front[i := b] + EncodeField(Field(10, sum)) by {
      assert ToBytes(m) == front + EncodeField(Field(10, sum));
    }
    assert ToBytes(m)[i] == front[i];
    ChecksumIsDigits(m);
    ValidatedIff(raw);
    if Parse(raw, true).Ok? {
      var items := Layout(raw, 0, None).value;
      var j: nat, k: nat :| NumbersHoldAt(raw, items, j, k);
      if items[j].start >= |front| {
        LaterStartsLater(raw, items, j, k);
        var before := FieldAt(raw, 0, None, j);
        OnlyChecksumThere(front[i := b], sum, items[j].start, before);
        before := FieldAt(raw, 0, None, k);
        OnlyChecksumThere(front[i := b], sum, items[k].start, before);
        assert raw[..|front|] == front[i := b];
        ChecksumNotices(front, i, b);
      }
    }
  }

  // ----- a change that is not noticed -----

  /** A printed list of fields in which one field's tag has been changed from 20 to 10. */
  lemma {:induction false} RetagFramed(pending: Option<(int, nat)>, a: seq<Field>, v: Bytes, b: seq<Field>)
    requires AllFramed(pending, a + [Field(20, v)] + b) && (pending.Some? ==> pending.value.0 != 10 && pending.value.0 != 20)
    ensures AllFramed(pending, a + [Field(10, v)] + b) && SOH !in v
    decreases |a|
  {
    var (x, y) := (a + [Field(20, v)] + b, a + [Field(10, v)] + b);
    if a == [] {
      assert x[0] == Field(20, v) && x[1..] == b && y[0] == Field(10, v) && y[1..] == b;
    } else {
      assert x[0] == a[0] && x[1..] == a[1..] + [Field(20, v)] + b;
      assert y[0] == a[0] && y[1..] == a[1..] + [Field(10, v)] + b;
      RetagFramed(Announces(a[0]), a[1..], v, b);
    }
  }

  /** That is a change of one byte. */
  lemma {:induction false} RetagIsOneByte(a: seq<Field>, v: Bytes, b: seq<Field>)
    ensures var (x, y) := (Encode(a + [Field(20, v)] + b), Encode(a + [Field(10, v)] + b));
            |Encode(a)| < |x| && x[|Encode(a)|] == 50 && y == x[|Encode(a)| := 49]
  {
    hide Encode;
    EncodeJoin(a + [Field(20, v)], b);
    EncodeJoin(a + [Field(10, v)], b);
    EncodeJoin(a, [Field(20, v)]);
    EncodeJoin(a, [Field(10, v)]);
    EncodeOne(Field(20, v));
    EncodeOne(Field(10, v));
    ChecksumBytes(v);
    TwentyBytes(v);
    var (x, y) := (Encode(a) + ([50, 48, EQUALS] + v + [SOH]) + Encode(b), Encode(a) + ([49, 48, EQUALS] + v + [SOH]) + Encode(b));
    assert x[|Encode(a)|] == 50 && y == x[|Encode(a)| := 49];
  }

  lemma TwentyBytes(v: Bytes)
    ensures EncodeField(Field(20, v)) == [50, 48, EQUALS] + v + [SOH]
  {
    assert Decimal(2) == [50];
    assert Decimal(20) == Decimal(2) + [48];
  }

  /** A field 20 in the body whose value is one less than the checksum: if its tag is damaged to 10, the
      message is accepted. */
  lemma {:induction false} UnnoticedChange(m: Message, a: seq<Field>, v: Bytes, b: seq<Field>)
    requires WellFormed(m) && m.body == a + [Field(20, v)] + b
    requires ParseUnsigned(v, CHECKSUM_LIMIT) == Some((Sum(Front(m, Decimal(|Encode(Inner(m))|))) + 255) % 256)
    ensures var i := |Encode(LeadFields(m) + (TypeField(m) + PrintedHeader(m) + a))|;
            && i < ChecksumAt(m) <= |ToBytes(m)| && ToBytes(m)[i] == 50
            && Parse(ToBytes(m)[i := 49], true).Ok?
  {
    hide Encode, BeginString, AllFramed, Layout, Parse, ParseUnsigned, Sum, Decimal, ThreeDigits, EncodeField, PrintedHeader, PrintedTrailer, TypeField;
    var length := Decimal(|Encode(Inner(m))|);
    var front := LeadFields(m) + (TypeField(m) + PrintedHeader(m) + a);
    var (tail, sum) := (b + PrintedTrailer(m), ChecksumField(m));
    var (old20, new10) := ([Field(20, v)], [Field(10, v)]);
    TypeIsOne(m);
    assert AllFields(m) == front + old20 + (tail + [sum]);
    PrintsAllFields(m);
    AllFieldsAreFramed(m);
    RetagFramed(None, front, v, tail + [sum]);
    RetagIsOneByte(front, v, tail + [sum]);
    var (i, raw) := (|Encode(front)|, Encode(front + new10 + (tail + [sum])));
    assert raw == ToBytes(m)[i := 49];
    ChecksumPosition(m, front, v, tail);
    RetaggedLayout(m, front, v, tail);
  }

  lemma TypeIsOne(m: Message)
    requires WellFormed(m)
    ensures |TypeField(m)| == 1
  {
    hide Encode, AllFramed, Inner;
  }

  lemma {:induction false} ChecksumPosition(m: Message, front: seq<Field>, v: Bytes, tail: seq<Field>)
    requires LeadFields(m) + Inner(m) == front + [Field(20, v)] + tail
    ensures |Encode(front)| < ChecksumAt(m) <= |ToBytes(m)|
    ensures ChecksumAt(m) == |Encode(front + [Field(10, v)] + tail)|
    ensures Encode(front + [Field(20, v)] + tail) == Encode(LeadFields(m)) + Encode(Inner(m))
  {
    hide Encode, LeadFields, Inner, EncodeField;
    EncodeJoin(LeadFields(m), Inner(m));
    RetagIsOneByte(front, v, tail);
  }

  lemma SpliceIndex(front: seq<Field>, x: Field, tail: seq<Field>, last: Field)
    ensures var (fs, inner, k) := (front + [x] + (tail + [last]), front + [x] + tail, |front| + 1 + |tail|);
            && |fs| == k + 1 && fs[|front|] == x && fs[k] == last
            && (forall i | 0 <= i < |front| :: fs[i] == front[i])
            && (forall i | |front| < i < k :: fs[i] == tail[i - |front| - 1])
            && fs == inner + [last] && fs[..k] == inner && (front != [] ==> fs[..1] == [front[0]])
  {
  }

  lemma TenFirstAndLast(items: seq<Placed>, fs: seq<Field>, j: nat, k: nat)
    requires |items| == |fs| == k + 1 && j <= k && (forall i | 0 <= i < |fs| :: items[i].field == fs[i])
    requires fs[j].tag == 10 && fs[k].tag == 10 && forall i | 0 <= i < j :: fs[i].tag != 10
    ensures IsFirst(items, j, 10) && IsLast(items, k, 10)
  {
  }

  /** After the change the damaged field comes first among those tagged 10, and the real one last. */
  lemma {:induction false} RetaggedTags(m: Message, front: seq<Field>, v: Bytes, tail: seq<Field>)
    requires WellFormed(m) && LeadFields(m) + Inner(m) == front + [Field(20, v)] + tail && |front| >= 3
    ensures var fs := front + [Field(10, v)] + (tail + [ChecksumField(m)]);
            var items := Place(0, fs);
            && Leads(items) && IsFirst(items, |front|, 10) && IsLast(items, |fs| - 1, 10)
            && items[1].field.value == Decimal(|Encode(Inner(m))|) && items[|front|].field.value == v
  {
    hide Encode, BeginString, AllFramed, Decimal, EncodeField, ChecksumField, Inner, WellFormed, LeadFields, Place, IsFirst, IsLast;
    var fs := front + [Field(10, v)] + (tail + [ChecksumField(m)]);
    var items := Place(0, fs);
    ChecksumIsDigits(m);
    NoOtherChecksum(m, front, v, tail);
    LeadTags(m, front, v, tail);
    SpliceIndex(front, Field(10, v), tail, ChecksumField(m));
    assert forall i | 0 <= i < |front| :: front[i] in front;
    TenFirstAndLast(items, fs, |front|, |fs| - 1);
  }

  /** Where the fields stand after the change. */
  lemma {:induction false} RetaggedPlaces(m: Message, front: seq<Field>, v: Bytes, tail: seq<Field>)
    requires WellFormed(m) && LeadFields(m) + Inner(m) == front + [Field(20, v)] + tail && |front| >= 3
    ensures var fs := front + [Field(10, v)] + (tail + [ChecksumField(m)]);
            var (items, k) := (Place(0, fs), |front| + 1 + |tail|);
            && items[k].start == ChecksumAt(m) <= |Encode(fs)|
            && Encode(fs)[..ChecksumAt(m)] == Encode(front + [Field(10, v)] + tail)
            && items[k].start - items[1].end == |Encode(Inner(m))|
  {
    hide Encode, BeginString, AllFramed, Decimal, EncodeField, ChecksumField, Inner, WellFormed, LeadFields, ChecksumAt, Place;
    var (inner, last) := (front + [Field(10, v)] + tail, ChecksumField(m));
    var (fs, k) := (front + [Field(10, v)] + (tail + [last]), |front| + 1 + |tail|);
    SpliceIndex(front, Field(10, v), tail, last);
    EncodeJoin(inner, [last]);
    PlaceAt(0, fs, 1);
    PlaceAt(0, fs, k);
    ChecksumPosition(m, front, v, tail);
    LeadTags(m, front, v, tail);
    LengthHolds(m);
  }

  lemma {:induction false} RetaggedLayout(m: Message, front: seq<Field>, v: Bytes, tail: seq<Field>)
    requires WellFormed(m) && LeadFields(m) + Inner(m) == front + [Field(20, v)] + tail
    requires |front| >= 3 && AllFramed(None, front + [Field(10, v)] + (tail + [ChecksumField(m)]))
    requires ParseUnsigned(v, CHECKSUM_LIMIT) == Some((Sum(Front(m, Decimal(|Encode(Inner(m))|))) + 255) % 256)
    ensures Parse(Encode(front + [Field(10, v)] + (tail + [ChecksumField(m)])), true).Ok?
  {
    hide Encode, AllFramed, Layout, Parse, ParseUnsigned, Sum, Decimal, ChecksumField, Inner, WellFormed, LeadFields, ChecksumAt, Front, Place, Leads, IsFirst, IsLast;
    var fs := front + [Field(10, v)] + (tail + [ChecksumField(m)]);
    var raw := Encode(fs);
    LayoutOfPrinted([], fs, None);
    assert [] + raw == raw;
    RetaggedTags(m, front, v, tail);
    RetaggedPlaces(m, front, v, tail);
    LengthHolds(m);
    RetaggedSum(m, front, v, tail);
    assert NumbersHoldAt(raw, Place(0, fs), |front|, |fs| - 1);
    ParsesIff(raw);
    ValidatedIff(raw);
  }

  lemma LeadTags(m: Message, front: seq<Field>, v: Bytes, tail: seq<Field>)
    requires WellFormed(m) && LeadFields(m) + Inner(m) == front + [Field(20, v)] + tail && |front| >= 3
    ensures front[0] == Field(8, BeginString(m)) && front[1] == Field(9, Decimal(|Encode(Inner(m))|)) && front[2].tag == 35
  {
    hide Encode, BeginString, AllFramed, Decimal, Inner;
    InnerTags(m);
    var all := front + [Field(20, v)] + tail;
    assert front[0] == all[0] && front[1] == all[1] && front[2] == all[2] == Inner(m)[0];
  }

  lemma NoOtherChecksum(m: Message, front: seq<Field>, v: Bytes, tail: seq<Field>)
    requires WellFormed(m) && LeadFields(m) + Inner(m) == front + [Field(20, v)] + tail
    ensures forall f | f in front || f in tail :: f.tag != 10
  {
    hide Encode, BeginString, AllFramed, Decimal, Inner;
    InnerTags(m);
    forall f | f in front || f in tail ensures f.tag != 10 {
      assert f in front + [Field(20, v)] + tail;
      assert f in LeadFields(m) || f in Inner(m);
    }
  }

  lemma {:induction false} LengthHolds(m: Message)
    requires WellFormed(m)
    ensures var f9 := Field(9, Decimal(|Encode(Inner(m))|));
            && ParseUnsigned(f9.value, LENGTH_LIMIT) == Some(|Encode(Inner(m))|)
            && ChecksumAt(m) == |Encode([Field(8, BeginString(m))])| + |EncodeField(f9)| + |Encode(Inner(m))|
  {
    hide Encode, BeginString, AllFramed, Decimal, Inner, ParseUnsigned, EncodeField;
    var (f8, f9) := (Field(8, BeginString(m)), Field(9, Decimal(|Encode(Inner(m))|)));
    ParseDecimal(|Encode(Inner(m))|, LENGTH_LIMIT);
    EncodeJoin([f8], [f9]);
    EncodeOne(f9);
    assert LeadFields(m) == [f8] + [f9];
  }

  lemma {:induction false} RetaggedSum(m: Message, front: seq<Field>, v: Bytes, tail: seq<Field>)
    requires LeadFields(m) + Inner(m) == front + [Field(20, v)] + tail
    ensures Sum(Encode(front + [Field(10, v)] + tail)) % 256 == (Sum(Front(m, Decimal(|Encode(Inner(m))|))) + 255) % 256
  {
    hide Encode, BeginString, Decimal, Inner, Sum;
    var (x, y, i) := (Encode(front + [Field(20, v)] + tail), Encode(front + [Field(10, v)] + tail), |Encode(front)|);
    RetagIsOneByte(front, v, tail);
    ChecksumPosition(m, front, v, tail);
    PrintedDeclares(m);
    SumAround(x, i, 49);
    SumAround(x, i, 50);
    assert x[i := 50] == x;
    assert Sum(x) == Sum(y) + 1;
  }

  // ----- such messages exist -----

  /** A Heartbeat with a field 20 and a two-byte text. */
  function Sample(t: byte, u: byte): Message {
    Message([Field(35, [ZERO])], [Field(20, [ZERO]), Field(58, [t, u])], [], None)
  }

  lemma {:induction false} SamplePieces(t: byte, u: byte)
    ensures var m := Sample(t, u);
            && Inner(m) == [Field(35, [ZERO]), Field(20, [ZERO]), Field(58, [t, u])]
            && TypeField(m) == [Field(35, [ZERO])] && PrintedHeader(m) == [] && PrintedTrailer(m) == []
            && BeginString(m) == DEFAULT_BEGIN_STRING
  {
    var m := Sample(t, u);
    assert m.header[1..] == [];
    assert Without(m.header[1..], {8, 9, 35}) == [] && Without(m.header, {8, 9, 35}) == [];
    assert GetRaw(m.header[1..], 8) == None;
  }

  lemma {:induction false} SampleIsWellFormed(t: byte, u: byte)
    requires t != SOH && u != SOH
    ensures WellFormed(Sample(t, u))
  {
    hide Encode, Inner, AllFramed, BeginString;
    SamplePieces(t, u);
    SampleIsFramed(t, u);
    SampleLength(t, u);
  }

  lemma {:induction false} SampleIsFramed(t: byte, u: byte)
    requires t != SOH && u != SOH
    ensures AllFramed(None, [Field(35, [ZERO]), Field(20, [ZERO]), Field(58, [t, u])])
  {
    var (a, b, c) := (Field(35, [ZERO]), Field(20, [ZERO]), Field(58, [t, u]));
    PrependFramed(c, []);
    PrependFramed(b, [c]);
    PrependFramed(a, [b, c]);
    assert [c] + [] == [c] && [b] + [c] == [b, c] && [a] + [b, c] == [a, b, c];
  }

  lemma {:induction false} SampleLength(t: byte, u: byte)
    ensures Encode(Inner(Sample(t, u))) == Encode([Field(35, [ZERO]), Field(20, [ZERO])]) + EncodeField(Field(58, [t, u]))
    ensures |EncodeField(Field(58, [t, u]))| == 6 && |Encode(Inner(Sample(t, u)))| == 16
  {
    hide Inner;
    SamplePieces(t, u);
    var (a, b, c) := (Field(35, [ZERO]), Field(20, [ZERO]), Field(58, [t, u]));
    EncodeJoin([a, b], [c]);
    EncodeOne(c);
    EncodeJoin([a], [b]);
    EncodeOne(a);
    EncodeOne(b);
    assert [a] + [b] == [a, b] && [a, b] + [c] == [a, b, c];
    assert |Decimal(3)| == 1 && |Decimal(35)| == 2 && |Decimal(2)| == 1 && |Decimal(20)| == 2 && |Decimal(5)| == 1 && |Decimal(58)| == 2;
  }

  /** The text contributes its two bytes to the sum, and nothing else depends on it. */
  lemma {:induction false} SampleSum(t: byte, u: byte) returns (rest: nat)
    ensures forall x: byte, y: byte :: Sum(Front(Sample(x, y), Decimal(|Encode(Inner(Sample(x, y)))|))) == rest + x + y
  {
    hide Encode, Inner, Decimal, Sum, EncodeField, BeginString;
    var lead := Encode([Field(8, DEFAULT_BEGIN_STRING), Field(9, Decimal(16))]) + Encode([Field(35, [ZERO]), Field(20, [ZERO])]);
    rest := Sum(lead) + Sum(SignedDecimal(58) + [EQUALS]) + Sum([SOH]);
    forall x: byte, y: byte ensures Sum(Front(Sample(x, y), Decimal(|Encode(Inner(Sample(x, y)))|))) == rest + x + y {
      SampleLength(x, y);
      SamplePieces(x, y);
      TextBytes(x, y);
      var text := SignedDecimal(58) + [EQUALS] + [x, y] + [SOH];
      assert Front(Sample(x, y), Decimal(16)) == lead + text;
      SumJoin(lead, text);
      SumJoin(SignedDecimal(58) + [EQUALS] + [x, y], [SOH]);
      SumJoin(SignedDecimal(58) + [EQUALS], [x, y]);
      SumJoin([x], [y]);
      assert [x] + [y] == [x, y];
      SumOne(x);
      SumOne(y);
    }
  }

  lemma TextBytes(x: byte, y: byte)
    ensures EncodeField(Field(58, [x, y])) == SignedDecimal(58) + [EQUALS] + [x, y] + [SOH]
  {
  }

  /** There are messages, and changes of one byte, that validation does not notice. */
  lemma {:induction false} UnnoticedChangeExists() returns (m: Message, i: nat)
    ensures WellFormed(m) && i < ChecksumAt(m) <= |ToBytes(m)| && ToBytes(m)[i] == 50
    ensures Parse(ToBytes(m)[i := 49], true).Ok?
  {
    hide Encode, Inner, Decimal, Sum, WellFormed, Parse, ToBytes, ChecksumAt, Front, LeadFields, TypeField, PrintedHeader, ParseUnsigned;
    var rest := SampleSum(0, 0);
    var t: int := (257 - rest % 256) % 256;
    var (x: byte, y: byte) := if t == 1 then (255, 2) else (t, 0);
    m := Sample(x, y);
    SampleIsWellFormed(x, y);
    var total := Sum(Front(m, Decimal(|Encode(Inner(m))|)));
    assert (total + 255) % 256 == 0;
    assert ParseUnsigned([ZERO], CHECKSUM_LIMIT) == Some(0) by { ZeroParses(); }
    assert m.body == [] + [Field(20, [ZERO])] + [Field(58, [x, y])];
    UnnoticedChange(m, [], [ZERO], [Field(58, [x, y])]);
    i := |Encode(LeadFields(m) + (TypeField(m) + PrintedHeader(m) + []))|;
  }

  lemma ZeroParses()
    ensures ParseUnsigned([ZERO], CHECKSUM_LIMIT) == Some(0)
  {
    assert Decimal(0) == [ZERO];
    ParseDecimal(0, CHECKSUM_LIMIT);
  }
}

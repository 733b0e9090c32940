/**
 What parsing accepts (src/message.rs), stated over the positions of the fields in the bytes: which
 strings are messages, how their fields are filed, and when BodyLength and CheckSum hold.
 */
module CodecValidation {
  import opened Messages
  import opened Bytes
  import opened Framer
  import opened Codec
  import opened CodecRoundTrip
  import opened Checksums

  // ----- where the fields are -----

  /** A field and the bytes [start, end) it occupies. */
  datatype Placed = Placed(start: nat, end: nat, field: Field)

  /** The fields of a byte string, read one after the other; None if one of them cannot be read. */
  function Layout(raw: Bytes, pos: nat, pending: Option<(int, nat)>): Option<seq<Placed>>
    decreases |raw| - pos
  {
    if pos >= |raw| then Some([])
    else
      match ReadField(raw, pos, pending)
      case Err(_) => None
      case Ok((f, next)) =>
        match Layout(raw, next, Announces(f))
        case None => None
        case Some(rest) => Some([Placed(pos, next, f)] + rest)
  }

  /** The first three fields, as far as there are any, are BeginString, BodyLength and MsgType. */
  predicate Leads(items: seq<Placed>) {
    && (|items| > 0 ==> items[0].field.tag == 8)
    && (|items| > 1 ==> items[1].field.tag == 9)
    && (|items| > 2 ==> items[2].field.tag == 35)
  }

  function HeaderOf(items: seq<Placed>): seq<Field> {
    if items == [] then []
    else
      var (front, f) := (items[..|items| - 1], items[|items| - 1].field);
      HeaderOf(front) + if IsHeaderTag(f.tag) then [f] else []
  }

  function BodyOf(items: seq<Placed>): seq<Field> {
    if items == [] then []
    else
      var (front, f) := (items[..|items| - 1], items[|items| - 1].field);
      BodyOf(front) + if IsBodyTag(f.tag) then [f] else []
  }

  function TrailerOf(items: seq<Placed>): seq<Field> {
    if items == [] then []
    else
      var (front, f) := (items[..|items| - 1], items[|items| - 1].field);
      TrailerOf(front) + if IsTrailerTag(f.tag) then [f] else []
  }

  /** A header field behind the header, or a body field behind the body. */
  ghost predicate OutOfPlace(items: seq<Placed>, k: nat)
    requires k < |items|
  {
    exists j | 0 <= j < k ::
      || (IsHeaderTag(items[k].field.tag) && !IsHeaderTag(items[j].field.tag))
      || (IsBodyTag(items[k].field.tag) && IsTrailerTag(items[j].field.tag))
  }

  /** The structure error of a message is its first field out of place. */
  ghost predicate NamesFirstOutOfPlace(items: seq<Placed>, e: Option<int>) {
    match e
    case None => forall k | 0 <= k < |items| :: !OutOfPlace(items, k)
    case Some(tag) => exists k | 0 <= k < |items| :: OutOfPlace(items, k) && items[k].field.tag == tag && forall j | 0 <= j < k :: !OutOfPlace(items, j)
  }

  ghost predicate IsFirst(items: seq<Placed>, j: nat, tag: int) {
    j < |items| && items[j].field.tag == tag && forall i | 0 <= i < j :: items[i].field.tag != tag
  }

  ghost predicate IsLast(items: seq<Placed>, k: nat, tag: int) {
    k < |items| && items[k].field.tag == tag && forall i | k < i < |items| :: items[i].field.tag != tag
  }

  // ----- the section machine against this reference -----

  ghost predicate SectionFits(items: seq<Placed>, section: nat) {
    && section <= 2
    && (section == 2 <==> exists j | 0 <= j < |items| :: IsTrailerTag(items[j].field.tag))
    && (section == 0 <==> forall j | 0 <= j < |items| :: IsHeaderTag(items[j].field.tag))
  }

  ghost predicate ChecksumFits(items: seq<Placed>, start: Option<nat>) {
    match start
    case None => forall j | 0 <= j < |items| :: items[j].field.tag != 10
    case Some(n) => exists k: nat :: IsLast(items, k, 10) && items[k].start == n
  }

  /** How far the parser has come, as the fields read so far tell it. */
  ghost predicate Describes(p: Progress, items: seq<Placed>) {
    && p.index == |items| && Leads(items)
    && p.msg.header == HeaderOf(items) && p.msg.body == BodyOf(items) && p.msg.trailer == TrailerOf(items)
    && NamesFirstOutOfPlace(items, p.msg.structureError)
    && SectionFits(items, p.section) && ChecksumFits(items, p.checksumStart)
  }

  lemma ClassesAreDisjoint(tag: int)
    ensures !(IsHeaderTag(tag) && IsTrailerTag(tag))
    ensures IsTrailerTag(10)
  {
  }

  lemma SectionGrows(items: seq<Placed>, section: nat, it: Placed)
    requires SectionFits(items, section)
    ensures SectionFits(items + [it], if IsTrailerTag(it.field.tag) then 2
                                      else if IsBodyTag(it.field.tag) && section == 0 then 1 else section)
  {
    hide IsHeaderTag, IsTrailerTag;
    ClassesAreDisjoint(it.field.tag);
    var all := items + [it];
    assert all[|items|] == it && forall j | 0 <= j < |items| :: all[j] == items[j];
  }

  lemma ChecksumGrows(items: seq<Placed>, start: Option<nat>, it: Placed)
    requires ChecksumFits(items, start)
    ensures ChecksumFits(items + [it], if it.field.tag == 10 then Some(it.start) else start)
  {
    var all := items + [it];
    assert all[|items|] == it && forall j | 0 <= j < |items| :: all[j] == items[j];
    if it.field.tag == 10 {
      assert IsLast(all, |items|, 10);
    } else if start.Some? {
      var k: nat :| IsLast(items, k, 10) && items[k].start == start.value;
      assert IsLast(all, k, 10);
    }
  }

  lemma PlaceStays(items: seq<Placed>, it: Placed, k: nat)
    requires k < |items|
    ensures OutOfPlace(items + [it], k) <==> OutOfPlace(items, k)
  {
    var all := items + [it];
    assert forall j | 0 <= j < |items| :: all[j] == items[j];
  }

  lemma NewestOutOfPlace(items: seq<Placed>, section: nat, it: Placed)
    requires SectionFits(items, section)
    ensures OutOfPlace(items + [it], |items|) <==>
            (IsHeaderTag(it.field.tag) && section != 0) || (IsBodyTag(it.field.tag) && section == 2)
  {
    hide IsHeaderTag, IsTrailerTag;
    var all := items + [it];
    assert all[|items|] == it && forall j | 0 <= j < |items| :: all[j] == items[j];
  }

  lemma ErrorGrows(items: seq<Placed>, e: Option<int>, section: nat, it: Placed)
    requires NamesFirstOutOfPlace(items, e) && SectionFits(items, section)
    ensures var now := (IsHeaderTag(it.field.tag) && section != 0) || (IsBodyTag(it.field.tag) && section == 2);
            NamesFirstOutOfPlace(items + [it], if e.Some? then e else if now then Some(it.field.tag) else None)
  {
    hide IsHeaderTag, IsTrailerTag, OutOfPlace, SectionFits;
    var all := items + [it];
    assert all[|items|] == it && forall j | 0 <= j < |items| :: all[j] == items[j];
    NewestOutOfPlace(items, section, it);
    forall k | 0 <= k < |items| ensures OutOfPlace(all, k) <==> OutOfPlace(items, k) {
      PlaceStays(items, it, k);
    }
  }

  lemma LeadsGrows(items: seq<Placed>, it: Placed)
    requires Leads(items)
    ensures Leads(items + [it]) <==> Misplaced(|items|, it.field.tag).None?
  {
  }

  lemma SectionsGrow(items: seq<Placed>, it: Placed)
    ensures var f := it.field;
            && HeaderOf(items + [it]) == HeaderOf(items) + (if IsHeaderTag(f.tag) then [f] else [])
            && BodyOf(items + [it]) == BodyOf(items) + (if IsBodyTag(f.tag) then [f] else [])
            && TrailerOf(items + [it]) == TrailerOf(items) + (if IsTrailerTag(f.tag) then [f] else [])
  {
    hide IsHeaderTag, IsTrailerTag;
    assert (items + [it])[..|items|] == items;
  }

  /** One field: it is filed exactly where the reference files it, or refused for its position. */
  lemma AcceptFollows(p: Progress, items: seq<Placed>, f: Field, next: nat)
    requires Describes(p, items)
    ensures var r := Accept(p, f, next);
            var all := items + [Placed(p.pos, next, f)];
            && (r.Ok? <==> Leads(all))
            && (r.Ok? ==> r.value.pos == next && r.value.pending == Announces(f) && Describes(r.value, all))
  {
    hide IsHeaderTag, IsTrailerTag, Announces, Leads, SectionFits, ChecksumFits, NamesFirstOutOfPlace, HeaderOf, BodyOf, TrailerOf;
    var it := Placed(p.pos, next, f);
    LeadsGrows(items, it);
    ClassesAreDisjoint(f.tag);
    SectionsGrow(items, it);
    SectionGrows(items, p.section, it);
    ChecksumGrows(items, p.checksumStart, it);
    ErrorGrows(items, p.msg.structureError, p.section, it);
    assert p.section == 2 || p.section <= 1 by { SectionBound(items, p.section); }
    assert p.msg.header + [] == p.msg.header && p.msg.body + [] == p.msg.body && p.msg.trailer + [] == p.msg.trailer;
  }

  lemma SectionBound(items: seq<Placed>, section: nat)
    requires SectionFits(items, section)
    ensures section <= 2
  {
  }

  lemma LeadsPrefix(items: seq<Placed>, more: seq<Placed>)
    requires Leads(items + more)
    ensures Leads(items)
  {
    assert forall j | 0 <= j < |items| :: (items + more)[j] == items[j];
  }

  lemma {:induction false} ParseFollows(raw: Bytes, p: Progress, items: seq<Placed>)
    requires Describes(p, items)
    ensures var layout := Layout(raw, p.pos, p.pending);
            var r := ParseFields(raw, p);
            && (r.Ok? <==> layout.Some? && Leads(items + layout.value))
            && (r.Ok? ==> Describes(r.value, items + layout.value))
    decreases |raw| - p.pos
  {
    hide Accept, ReadField, Describes, Leads, Announces;
    if p.pos >= |raw| {
      assert items + [] == items;
      assert Leads(items) by { DescribedLeads(p, items); }
    } else {
      var read := ReadField(raw, p.pos, p.pending);
      if read.Ok? {
        var (f, next) := read.value;
        var it := Placed(p.pos, next, f);
        AcceptFollows(p, items, f, next);
        var rest := Layout(raw, next, Announces(f));
        if rest.Some? {
          assert items + ([it] + rest.value) == (items + [it]) + rest.value;
          if Leads(items + [it] + rest.value) {
            LeadsPrefix(items + [it], rest.value);
          }
        }
        if Leads(items + [it]) {
          ParseFollows(raw, Accept(p, f, next).value, items + [it]);
        }
      }
    }
  }

  lemma DescribedLeads(p: Progress, items: seq<Placed>)
    requires Describes(p, items)
    ensures Leads(items)
  {
  }

  /** What a byte string parses to: its fields, in the order they stand, each in the section of its tag,
      with the first field out of place named; and it parses exactly when its fields can be read and
      begin with BeginString, BodyLength and MsgType. */
  lemma {:induction false} ParsesIff(raw: Bytes)
    ensures var layout := Layout(raw, 0, None);
            var r := Parse(raw, false);
            && (r.Ok? <==> layout.Some? && Leads(layout.value))
            && (r.Ok? ==>
                  && r.value.header == HeaderOf(layout.value) && r.value.body == BodyOf(layout.value)
                  && r.value.trailer == TrailerOf(layout.value)
                  && NamesFirstOutOfPlace(layout.value, r.value.structureError))
  {
    hide Layout, ParseFields, Leads, HeaderOf, BodyOf, TrailerOf;
    StartIsDescribed();
    ParseFollows(raw, START, []);
    if Layout(raw, 0, None).Some? {
      assert [] + Layout(raw, 0, None).value == Layout(raw, 0, None).value;
    }
  }

  lemma StartIsDescribed()
    ensures Describes(START, [])
  {
  }

  // ----- the declared numbers -----

  lemma {:induction false} GetRawJoin(a: seq<Field>, b: seq<Field>, tag: int)
    ensures GetRaw(a + b, tag) == if GetRaw(a, tag).Some? then GetRaw(a, tag) else GetRaw(b, tag)
  {
    if a == [] {
      assert a + b == b;
    } else {
      assert (a + b)[0] == a[0] && (a + b)[1..] == a[1..] + b;
      GetRawJoin(a[1..], b, tag);
    }
  }

  lemma GetRawOne(f: Field, tag: int)
    ensures GetRaw([f], tag) == (if f.tag == tag then Some(f.value) else None) && GetRaw([], tag) == None
  {
    assert [f][1..] == [];
  }

  /** Looking a tag up in its section finds the first field that carries it. */
  lemma {:induction false} FirstOfSection(items: seq<Placed>, j: nat, tag: int)
    requires IsFirst(items, j, tag)
    ensures IsHeaderTag(tag) ==> GetRaw(HeaderOf(items), tag) == Some(items[j].field.value)
    ensures IsTrailerTag(tag) ==> GetRaw(TrailerOf(items), tag) == Some(items[j].field.value)
    decreases |items|
  {
    hide IsHeaderTag, IsTrailerTag, GetRaw;
    var last := |items| - 1;
    var (front, f) := (items[..last], items[last].field);
    GetRawOne(f, tag);
    GetRawJoin(HeaderOf(front), if IsHeaderTag(f.tag) then [f] else [], tag);
    GetRawJoin(TrailerOf(front), if IsTrailerTag(f.tag) then [f] else [], tag);
    if j < last {
      assert IsFirst(front, j, tag);
      FirstOfSection(front, j, tag);
    } else {
      NoneOfSection(front, tag);
    }
  }

  lemma {:induction false} NoneOfSection(items: seq<Placed>, tag: int)
    requires forall j | 0 <= j < |items| :: items[j].field.tag != tag
    ensures GetRaw(HeaderOf(items), tag).None? && GetRaw(TrailerOf(items), tag).None?
    decreases |items|
  {
    hide IsHeaderTag, IsTrailerTag, GetRaw;
    GetRawOne(Field(0, []), tag);
    if items != [] {
      var last := |items| - 1;
      var (front, f) := (items[..last], items[last].field);
      NoneOfSection(front, tag);
      GetRawOne(f, tag);
      GetRawJoin(HeaderOf(front), if IsHeaderTag(f.tag) then [f] else [], tag);
      GetRawJoin(TrailerOf(front), if IsTrailerTag(f.tag) then [f] else [], tag);
    }
  }

  lemma {:induction false} FirstExists(items: seq<Placed>, k: nat, tag: int) returns (j: nat)
    requires k < |items| && items[k].field.tag == tag
    ensures IsFirst(items, j, tag) && j <= k
    decreases k
  {
    if i :| 0 <= i < k && items[i].field.tag == tag {
      j := FirstExists(items, i, tag);
    } else {
      j := k;
    }
  }

  lemma TagHasNoSoh(s: Bytes)
    requires ParseSigned(s).Some?
    ensures SOH !in s
  {
    if |s| > 0 {
      assert s == [s[0]] + s[1..];
    }
  }

  /** A field that no Length field precedes ends at the first SOH. */
  lemma {:induction false} PlainFieldEnds(raw: Bytes, pos: nat, pending: Option<(int, nat)>)
    requires ReadField(raw, pos, pending).Ok?
    requires pending.Some? ==> pending.value.0 != ReadField(raw, pos, pending).value.0.tag
    ensures Find(raw, [SOH], pos) == Some(ReadField(raw, pos, pending).value.1 - 1)
  {
    hide Find, ParseSigned;
    var eq := Find(raw, [EQUALS], pos).value;
    var end := Find(raw, [SOH], eq + 1).value;
    TagHasNoSoh(raw[pos..eq]);
    assert raw[eq..eq + 1] == [EQUALS];
    forall i: nat | pos <= i < end ensures !Occurs(raw, [SOH], i) {
      if i < eq {
        assert raw[pos..eq][i - pos] == raw[i];
      } else if i == eq {
        assert raw[eq..eq + 1][0] == EQUALS;
      }
      assert i + 1 <= |raw| ==> raw[i..i + 1][0] == raw[i];
    }
    FindIs(raw, [SOH], pos, end);
  }

  /** The layout, one field at a time. */
  lemma {:induction false} LayoutUnfolds(raw: Bytes, pos: nat, pending: Option<(int, nat)>)
    requires Layout(raw, pos, pending).Some? && Layout(raw, pos, pending).value != []
    ensures var items := Layout(raw, pos, pending).value;
            && ReadField(raw, pos, pending) == Ok((items[0].field, items[0].end)) && items[0].start == pos
            && Layout(raw, items[0].end, Announces(items[0].field)) == Some(items[1..])
  {
    hide ReadField, Announces;
    var (f, next) := ReadField(raw, pos, pending).value;
    var rest := Layout(raw, next, Announces(f)).value;
    assert ([Placed(pos, next, f)] + rest)[1..] == rest;
  }

  /** BodyLength counts from the byte behind the second field. */
  lemma {:induction false} CountsFromSecond(raw: Bytes, items: seq<Placed>)
    requires Layout(raw, 0, None) == Some(items) && Leads(items) && |items| >= 2
    ensures FieldEnd(raw, 0, 1) == Some(items[1].end)
  {
    hide Layout, ReadField, Find;
    LayoutUnfolds(raw, 0, None);
    LayoutUnfolds(raw, items[0].end, Announces(items[0].field));
    assert items[1..][0] == items[1];
    PlainFieldEnds(raw, 0, None);
    PlainFieldEnds(raw, items[0].end, Announces(items[0].field));
  }

  /** A field starts inside the bytes, and starts ascend. */
  lemma {:induction false} StartsAscend(raw: Bytes, pos: nat, pending: Option<(int, nat)>, k: nat)
    requires Layout(raw, pos, pending).Some? && k < |Layout(raw, pos, pending).value|
    ensures var items := Layout(raw, pos, pending).value;
            && pos <= items[k].start < items[k].end <= |raw| && (k > 0 ==> items[k - 1].end == items[k].start)
    decreases |raw| - pos
  {
    hide ReadField, Announces;
    LayoutUnfolds(raw, pos, pending);
    var items := Layout(raw, pos, pending).value;
    if k > 0 {
      var next := items[0].end;
      assert items[1..][k - 1] == items[k];
      StartsAscend(raw, next, Announces(items[0].field), k - 1);
      if k == 1 {
        LayoutUnfolds(raw, next, Announces(items[0].field));
      } else {
        assert items[1..][k - 2] == items[k - 1];
      }
    }
  }

  /** Both declared numbers are the true ones: BodyLength is the distance from the end of the second field
      to the start of the last CheckSum field, and the first CheckSum field holds the sum, modulo 256,
      of all bytes before the last one. */
  ghost predicate NumbersHold(raw: Bytes, items: seq<Placed>) {
    exists j: nat, k: nat :: NumbersHoldAt(raw, items, j, k)
  }

  ghost predicate NumbersHoldAt(raw: Bytes, items: seq<Placed>, j: nat, k: nat) {
    && IsFirst(items, j, 10) && IsLast(items, k, 10) && |items| >= 2 && items[k].start <= |raw|
    && ParseUnsigned(items[1].field.value, LENGTH_LIMIT).Some?
    && ParseUnsigned(items[1].field.value, LENGTH_LIMIT).value == items[k].start - items[1].end
    && ParseUnsigned(items[j].field.value, CHECKSUM_LIMIT) == Some(Sum(raw[..items[k].start]) % 256)
  }

  /** Validation of a described parse. */
  lemma {:induction false} ValidatesIff(raw: Bytes, p: Progress, items: seq<Placed>)
    requires Layout(raw, 0, None) == Some(items) && Describes(p, items)
    ensures Validate(raw, p).Ok? <==> NumbersHold(raw, items)
    ensures Validate(raw, p).Ok? ==> Validate(raw, p).value == p.msg
  {
    hide Layout, ParseUnsigned, Sum, HeaderOf, TrailerOf, BodyOf, GetRaw, FieldEnd, NamesFirstOutOfPlace, SectionFits;
    if p.checksumStart.Some? {
      var k: nat :| IsLast(items, k, 10) && items[k].start == p.checksumStart.value;
      var j := FirstExists(items, k, 10);
      assert |items| >= 2;
      FirstOfSection(items, j, 10);
      assert IsFirst(items, 1, 9);
      FirstOfSection(items, 1, 9);
      CountsFromSecond(raw, items);
      StartsAscend(raw, 0, None, k);
      assert Validate(raw, p).Ok? <==> NumbersHoldAt(raw, items, j, k);
      forall a: nat, b: nat | NumbersHoldAt(raw, items, a, b) ensures a == j && b == k {
        OnlyOne(items, a, j, b, k);
      }
    } else {
      forall a: nat, b: nat ensures !NumbersHoldAt(raw, items, a, b) {
      }
    }
  }

  lemma OnlyOne(items: seq<Placed>, a: nat, j: nat, b: nat, k: nat)
    requires IsFirst(items, a, 10) && IsFirst(items, j, 10) && IsLast(items, b, 10) && IsLast(items, k, 10)
    ensures a == j && b == k
  {
  }

  /** Validation accepts a byte string if and only if it parses and both declared numbers are the true ones;
      then the result is the same as without validation. */
  lemma {:induction false} ValidatedIff(raw: Bytes)
    ensures Parse(raw, true).Ok? <==>
            Parse(raw, false).Ok? && Layout(raw, 0, None).Some? && NumbersHold(raw, Layout(raw, 0, None).value)
    ensures Parse(raw, true).Ok? ==> Parse(raw, true) == Parse(raw, false)
  {
    hide Layout, ParseFields, Validate, NumbersHold, Describes;
    StartIsDescribed();
    ParseFollows(raw, START, []);
    ParsesIff(raw);
    if ParseFields(raw, START).Ok? {
      var items := Layout(raw, 0, None).value;
      assert [] + items == items;
      ValidatesIff(raw, ParseFields(raw, START).value, items);
    }
  }

  // ----- the tag classes -----

  predicate Between(t: int, lo: int, hi: int) { lo <= t <= hi }

  /** The tag classes, and why printing keeps a data field behind its Length field: both are in one section, and
      in the order of that section no tag comes between them. */
  lemma TagTables(t: int)
    ensures IsHeaderTag(t) <==>
            || t in {34, 35, 43, 49, 50, 52, 56, 57, 97, 122, 347, 369} || Between(t, 8, 9) || Between(t, 90, 91)
            || Between(t, 115, 116) || Between(t, 128, 129) || Between(t, 142, 145) || Between(t, 212, 213)
            || Between(t, 627, 630) || Between(t, 1128, 1129)
    ensures IsTrailerTag(t) <==> t in {10, 89, 93}
    ensures DataTag(t) == (if t == 93 then Some(89)
                           else if t in {90, 95, 212, 445, 618, 621} || (Between(t, 348, 364) && t % 2 == 0) then Some(t + 1) else None)
    ensures DataTag(t).Some? ==>
              var d := DataTag(t).value;
              && (IsHeaderTag(t) <==> IsHeaderTag(d)) && (IsTrailerTag(t) <==> IsTrailerTag(d))
              && (IsHeaderTag(t) ==> forall x | t < x < d :: !IsHeaderTag(x))
              && (IsTrailerTag(t) ==> d < t && forall x | d < x < t :: !IsTrailerTag(x))
  {
  }
}

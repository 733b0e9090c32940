/**
 The parser and the printer as the loops they are, proved to compute Codec.Parse and
 Codec.ToBytes.
 */
module CodecMachine {
  import opened Messages
  import opened Bytes
  import opened Framer
  import opened Codec
  import opened CodecRoundTrip

  /** Read the field at `pos`; a data value extends as far as its Length field announced. */
  method NextField(raw: Bytes, pos: nat, pending: Option<(int, nat)>) returns (r: Result<(Field, nat)>)
    ensures r == ReadField(raw, pos, pending)
    ensures r.Ok? ==> pos < r.value.1 <= |raw|
  {
    hide Find, ParseSigned;
    var eq := Find(raw, [EQUALS], pos);
    if eq.None? {
      return Err(NoEquals);
    }
    var tag := ParseSigned(raw[pos..eq.value]);
    if tag.None? {
      return Err(BadTag);
    }
    var start := eq.value + 1;
    var end: nat;
    if pending.Some? && pending.value.0 == tag.value {
      end := start + pending.value.1;
      if end >= |raw| || raw[end] != SOH {
        return Err(DataTooShort);
      }
    } else {
      var soh := Find(raw, [SOH], start);
      if soh.None? {
        return Err(NotTerminated);
      }
      end := soh.value;
    }
    var read: (Field, nat) := (Field(tag.value, raw[start..end]), end + 1);
    return Ok(read);
  }

  method ParseMessage(raw: Bytes, validate: bool) returns (r: Result<Message>)
    ensures r == Parse(raw, validate)
  {
    hide ReadField, ParseUnsigned, IsHeaderTag, Validate, DataTag;
    var pos, section, index := 0, 0, 0;
    var checksumStart: Option<nat> := None;
    var pending: Option<(int, nat)> := None;
    var msg := Message([], [], [], None);
    while pos < |raw|
      invariant ParseFields(raw, Progress(pos, section, index, checksumStart, pending, msg)) == ParseFields(raw, START)
      decreases |raw| - pos
    {
      ghost var p := Progress(pos, section, index, checksumStart, pending, msg);
      var fieldStart := pos;
      var next := NextField(raw, pos, pending);
      if next.Err? {
        return Err(next.error);
      }
      var f := next.value.0;
      pos := next.value.1;

      pending := None;
      var data := DataTag(f.tag);
      if data.Some? {
        var length := ParseUnsigned(f.value, LENGTH_LIMIT);
        if length.Some? {
          pending := Some((data.value, length.value));
        }
      }

      if index == 0 && f.tag != 8 {
        return Err(NotBeginString);
      }
      if index == 1 && f.tag != 9 {
        return Err(NotBodyLength);
      }
      if index == 2 && f.tag != 35 {
        return Err(NotMsgType);
      }
      index := index + 1;

      if f.tag == 10 {
        checksumStart := Some(fieldStart);
        section := 2;
        msg := msg.(trailer := msg.trailer + [f]);
      } else if IsHeaderTag(f.tag) {
        if section != 0 && msg.structureError.None? {
          msg := msg.(structureError := Some(f.tag));
        }
        msg := msg.(header := msg.header + [f]);
      } else if IsTrailerTag(f.tag) {
        section := 2;
        msg := msg.(trailer := msg.trailer + [f]);
      } else {
        if section == 0 {
          section := 1;
        } else if section == 2 && msg.structureError.None? {
          msg := msg.(structureError := Some(f.tag));
        }
        msg := msg.(body := msg.body + [f]);
      }
      assert Accept(p, f, pos) == Ok(Progress(pos, section, index, checksumStart, pending, msg));
    }
    if validate {
      r := Validate(raw, Progress(pos, section, index, checksumStart, pending, msg));
    } else {
      r := Ok(msg);
    }
  }

  /** Byte offset behind the SOH that ends the nth field. */
  method FieldEndOf(raw: Bytes, n: nat) returns (r: Option<nat>)
    ensures r == FieldEnd(raw, 0, n)
  {
    hide FieldEnd;
    var seen := 0;
    for i := 0 to |raw|
      invariant seen <= n && FieldEnd(raw, i, n - seen) == FieldEnd(raw, 0, n)
    {
      FieldEndStep(raw, i, n - seen);
      if raw[i] == SOH {
        if seen == n {
          return Some(i + 1);
        }
        seen := seen + 1;
      }
    }
    NoFieldLeft(raw, n - seen);
    return None;
  }

  lemma {:induction false} FieldEndStep(raw: Bytes, i: nat, n: nat)
    requires i < |raw|
    ensures FieldEnd(raw, i, n) ==
            if raw[i] != SOH then FieldEnd(raw, i + 1, n) else if n == 0 then Some(i + 1) else FieldEnd(raw, i + 1, n - 1)
  {
    hide Find;
    assert raw[i..i + 1] == [raw[i]];
    if raw[i] == SOH {
      FindIs(raw, [SOH], i, i);
    } else {
      FindStep(raw, i);
    }
  }

  lemma {:induction false} FindStep(raw: Bytes, i: nat)
    requires i < |raw| && !Occurs(raw, [SOH], i)
    ensures Find(raw, [SOH], i) == Find(raw, [SOH], i + 1)
  {
  }

  lemma {:induction false} NoFieldLeft(raw: Bytes, n: nat)
    ensures FieldEnd(raw, |raw|, n).None?
  {
    FindIsNone(raw, [SOH], |raw|);
  }

  method WriteFields(buf: Bytes, fs: seq<Field>) returns (out: Bytes)
    ensures out == buf + Encode(fs)
  {
    hide EncodeField;
    out := buf;
    assert fs[..0] == [];
    assert out == buf + Encode(fs[..0]);
    for n := 0 to |fs|
      invariant out == buf + Encode(fs[..n])
    {
      EncodeJoin(fs[..n], [fs[n]]);
      EncodeOne(fs[n]);
      assert fs[..n + 1] == fs[..n] + [fs[n]];
      out := out + EncodeField(fs[n]);
    }
    assert fs[..|fs|] == fs;
  }

  method PrintMessage(m: Message) returns (out: Bytes)
    ensures out == ToBytes(m)
  {
    hide EncodeField, Sort, Without, GetRaw, Checksum, ThreeDigits, Decimal;
    var inner: Bytes := [];
    var msgType := GetRaw(m.header, 35);
    if msgType.Some? {
      inner := inner + EncodeField(Field(35, msgType.value));
      EncodeOne(Field(35, msgType.value));
    }
    assert inner == Encode(TypeField(m));
    var header := Sort(Without(m.header, {8, 9, 35}), false);
    inner := WriteFields(inner, header);
    inner := WriteFields(inner, m.body);
    var trailer := Sort(Without(m.trailer, {10}), true);
    inner := WriteFields(inner, trailer);
    EncodeJoin(TypeField(m), PrintedHeader(m));
    EncodeJoin(TypeField(m) + PrintedHeader(m), m.body);
    EncodeJoin(TypeField(m) + PrintedHeader(m) + m.body, PrintedTrailer(m));
    assert inner == Encode(Inner(m));

    var begin := GetRaw(m.header, 8);
    var beginString := if begin.Some? then begin.value else DEFAULT_BEGIN_STRING;
    out := EncodeField(Field(8, beginString));
    out := out + EncodeField(Field(9, Decimal(|inner|)));
    EncodeJoin([Field(8, beginString)], [Field(9, Decimal(|inner|))]);
    EncodeOne(Field(8, beginString));
    EncodeOne(Field(9, Decimal(|inner|)));
    assert LeadFields(m) == [Field(8, beginString)] + [Field(9, Decimal(|inner|))];
    out := out + inner;
    var sum := Codec.Checksum(out);
    out := out + EncodeField(Field(10, ThreeDigits(sum)));
  }
}

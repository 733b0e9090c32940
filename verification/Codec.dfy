/**
 The wire codec (src/message.rs, src/tags.rs): printing a message with computed BodyLength and
 CheckSum, and parsing it back, including length-prefixed data fields that contain SOH.
 */
module Codec {
  import opened Messages
  import opened Bytes
  import opened Framer

  datatype Field = Field(tag: int, value: Bytes)

  /** A message in three sections; `structureError` is the first tag found out of section order. */
  datatype Message = Message(header: seq<Field>, body: seq<Field>, trailer: seq<Field>, structureError: Option<int>)

  // ----- tag classes -----

  predicate IsHeaderTag(tag: int) {
    tag in {8, 9, 34, 35, 43, 49, 50, 52, 56, 57, 90, 91, 97, 115, 116, 122, 128, 129, 142, 143, 144, 145,
      212, 213, 347, 369, 627, 628, 629, 630, 1128, 1129}
  }

  predicate IsTrailerTag(tag: int) { tag == 93 || tag == 89 || tag == 10 }

  /** The data tag whose value a Length tag announces. */
  function DataTag(tag: int): Option<int> {
    if tag == 90 then Some(91)
    else if tag == 93 then Some(89)
    else if tag == 95 then Some(96)
    else if tag == 212 then Some(213)
    else if tag in {348, 350, 352, 354, 356, 358, 360, 362, 364, 445, 618, 621} then Some(tag + 1)
    else None
  }

  /** The data field a field announces, with its length. */
  function Announces(f: Field): Option<(int, nat)> {
    match DataTag(f.tag)
    case None => None
    case Some(data) =>
      match ParseUnsigned(f.value, LENGTH_LIMIT)
      case None => None
      case Some(length) => Some((data, length))
  }

  // ----- printing -----

  function EncodeField(f: Field): (s: Bytes)
    ensures |s| >= 3
  {
    SignedDecimal(f.tag) + [EQUALS] + f.value + [SOH]
  }

  function Encode(fs: seq<Field>): Bytes {
    if fs == [] then [] else EncodeField(fs[0]) + Encode(fs[1..])
  }

  function GetRaw(fs: seq<Field>, tag: int): Option<Bytes> {
    if fs == [] then None else if fs[0].tag == tag then Some(fs[0].value) else GetRaw(fs[1..], tag)
  }

  function Without(fs: seq<Field>, tags: set<int>): seq<Field> {
    if fs == [] then []
    else if fs[0].tag in tags then Without(fs[1..], tags)
    else [fs[0]] + Without(fs[1..], tags)
  }

  /** Header fields print in ascending, trailer fields in descending tag order; equal tags keep
      their order. */
  predicate Before(a: Field, b: Field, descending: bool) {
    if descending then a.tag >= b.tag else a.tag <= b.tag
  }

  function Insert(f: Field, fs: seq<Field>, descending: bool): seq<Field> {
    if fs == [] || Before(f, fs[0], descending) then [f] + fs
    else [fs[0]] + Insert(f, fs[1..], descending)
  }

  function Sort(fs: seq<Field>, descending: bool): seq<Field> {
    if fs == [] then [] else Insert(fs[0], Sort(fs[1..], descending), descending)
  }

  function Sum(s: Bytes): nat {
    if s == [] then 0 else s[0] + Sum(s[1..])
  }

  function Checksum(s: Bytes): (n: nat)
    ensures n < 256
  {
    Sum(s) % 256
  }

  function ThreeDigits(n: nat): (s: Bytes)
    ensures AllDigits(s)
  {
    var d := Decimal(n);
    if |d| < 3 then Zeros(3 - |d|) + d else d
  }

  const DEFAULT_BEGIN_STRING: Bytes := [70, 73, 88, 46, 52, 46, 52]   // FIX.4.4

  function BeginString(m: Message): Bytes {
    match GetRaw(m.header, 8)
    case Some(v) => v
    case None => DEFAULT_BEGIN_STRING
  }

  function PrintedHeader(m: Message): seq<Field> { Sort(Without(m.header, {8, 9, 35}), false) }

  function PrintedTrailer(m: Message): seq<Field> { Sort(Without(m.trailer, {10}), true) }

  function TypeField(m: Message): seq<Field> {
    match GetRaw(m.header, 35)
    case Some(v) => [Field(35, v)]
    case None => []
  }

  /** The fields BodyLength counts. */
  function Inner(m: Message): seq<Field> {
    TypeField(m) + PrintedHeader(m) + m.body + PrintedTrailer(m)
  }

  function LeadFields(m: Message): seq<Field> {
    [Field(8, BeginString(m)), Field(9, Decimal(|Encode(Inner(m))|))]
  }

  function ChecksumField(m: Message): Field {
    Field(10, ThreeDigits(Checksum(Encode(LeadFields(m)) + Encode(Inner(m)))))
  }

  function ToBytes(m: Message): Bytes {
    Encode(LeadFields(m)) + Encode(Inner(m)) + EncodeField(ChecksumField(m))
  }

  // ----- parsing -----

  datatype ParseError =
    | NoEquals | BadTag | DataTooShort | NotTerminated | NotBeginString | NotBodyLength | NotMsgType
    | NoCheckSum | BadBodyLength | BodyLengthMismatch | BadCheckSum | CheckSumMismatch | TooFewFields

  datatype Result<+T> = Ok(value: T) | Err(error: ParseError)

  /** How far parsing has come. Sections: 0 header, 1 body, 2 trailer. */
  datatype Progress = Progress(
    pos: nat, section: nat, index: nat, checksumStart: Option<nat>, pending: Option<(int, nat)>, msg: Message)

  const START: Progress := Progress(0, 0, 0, None, None, Message([], [], [], None))

  /** The end of the value starting at `start`; a data value ends where its Length field says. */
  function ValueEnd(raw: Bytes, tag: int, start: nat, pending: Option<(int, nat)>): (r: Result<nat>)
    ensures r.Ok? ==> start <= r.value < |raw|
  {
    if pending.Some? && pending.value.0 == tag then
      var end := start + pending.value.1;
      if end >= |raw| || raw[end] != SOH then Err(DataTooShort) else Ok(end)
    else
      match Find(raw, [SOH], start)
      case None => Err(NotTerminated)
      case Some(end) => Ok(end)
  }

  /** The field at `pos` and the position behind it. */
  function ReadField(raw: Bytes, pos: nat, pending: Option<(int, nat)>): (r: Result<(Field, nat)>)
    ensures r.Ok? ==> pos < r.value.1 <= |raw|
  {
    match Find(raw, [EQUALS], pos)
    case None => Err(NoEquals)
    case Some(eq) =>
      match ParseSigned(raw[pos..eq])
      case None => Err(BadTag)
      case Some(tag) =>
        match ValueEnd(raw, tag, eq + 1, pending)
        case Err(e) => Err(e)
        case Ok(end) => Ok((Field(tag, raw[eq + 1..end]), end + 1))
  }

  /** Anything but 8, 9, 35 in front makes a message garbled. */
  function Misplaced(index: nat, tag: int): Option<ParseError> {
    if index == 0 && tag != 8 then Some(NotBeginString)
    else if index == 1 && tag != 9 then Some(NotBodyLength)
    else if index == 2 && tag != 35 then Some(NotMsgType)
    else None
  }

  function FirstError(m: Message, tag: int): Option<int> {
    if m.structureError.Some? then m.structureError else Some(tag)
  }

  /** The tag alone decides the section a field goes to; the first field met in the wrong place is noted. */
  function Accept(p: Progress, f: Field, next: nat): Result<Progress> {
    match Misplaced(p.index, f.tag)
    case Some(e) => Err(e)
    case None =>
      var q := p.(pos := next, index := p.index + 1, pending := Announces(f));
      var m := p.msg;
      if f.tag == 10 then
        Ok(q.(section := 2, checksumStart := Some(p.pos), msg := m.(trailer := m.trailer + [f])))
      else if IsHeaderTag(f.tag) then
        Ok(q.(msg := m.(header := m.header + [f],
                        structureError := if p.section != 0 then FirstError(m, f.tag) else m.structureError)))
      else if IsTrailerTag(f.tag) then
        Ok(q.(section := 2, msg := m.(trailer := m.trailer + [f])))
      else
        Ok(q.(section := if p.section == 0 then 1 else p.section,
              msg := m.(body := m.body + [f],
                        structureError := if p.section == 2 then FirstError(m, f.tag) else m.structureError)))
  }

  function ParseStep(raw: Bytes, p: Progress): Result<Progress> {
    match ReadField(raw, p.pos, p.pending)
    case Err(e) => Err(e)
    case Ok((f, next)) => Accept(p, f, next)
  }

  function ParseFields(raw: Bytes, p: Progress): Result<Progress>
    decreases |raw| - p.pos
  {
    if p.pos >= |raw| then Ok(p)
    else
      match ParseStep(raw, p)
      case Err(e) => Err(e)
      case Ok(q) => ParseFields(raw, q)
  }

  /** Position behind the SOH that ends the nth field from `from`. */
  function FieldEnd(raw: Bytes, from: nat, n: nat): Option<nat>
    decreases n
  {
    match Find(raw, [SOH], from)
    case None => None
    case Some(at) => if n == 0 then Some(at + 1) else FieldEnd(raw, at + 1, n - 1)
  }

  const CHECKSUM_LIMIT: nat := 0x1_0000_0000

  function UpTo(s: Bytes, n: nat): Bytes { if n <= |s| then s[..n] else s }

  /** Check BodyLength and CheckSum against the bytes. */
  function Validate(raw: Bytes, p: Progress): Result<Message> {
    if p.checksumStart.None? then Err(NoCheckSum)
    else
      var start := p.checksumStart.value;
      var declared := match GetRaw(p.msg.header, 9) case None => None case Some(v) => ParseUnsigned(v, LENGTH_LIMIT);
      var from := FieldEnd(raw, 0, 1);
      if declared.None? then Err(BadBodyLength)
      else if from.None? then Err(TooFewFields)
      else if declared.value != start - from.value then Err(BodyLengthMismatch)
      else
        var sum := match GetRaw(p.msg.trailer, 10) case None => None case Some(v) => ParseUnsigned(v, CHECKSUM_LIMIT);
        if sum.None? then Err(BadCheckSum)
        else if sum.value != Checksum(UpTo(raw, start)) then Err(CheckSumMismatch)
        else Ok(p.msg)
  }

  function Parse(raw: Bytes, validate: bool): Result<Message> {
    match ParseFields(raw, START)
    case Err(e) => Err(e)
    case Ok(p) => if validate then Validate(raw, p) else Ok(p.msg)
  }
}

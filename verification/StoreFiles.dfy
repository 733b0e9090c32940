/**
 The files behind the file store (src/store.rs) and what loading them yields: an append-only
 body, a text index of "seqnum,offset,length" lines, and a fixed-width line with both counters.
 */
module StoreFiles {
  import opened Messages
  import opened Bytes
  import opened Framer

  const U64: nat := 0x1_0000_0000_0000_0000
  const NEWLINE: byte := 10
  const RETURN: byte := 13
  const COMMA: byte := 44
  const SPACE: byte := 32
  const SEPARATOR: Bytes := [32, 58, 32]   // " : "

  /** `session` holds the creation time. */
  datatype Disk = Disk(body: Bytes, header: Bytes, seqnums: Bytes, session: Option<int>)

  // ----- the index -----

  datatype Entry = Entry(offset: nat, length: nat)

  function IndexLine(n: nat, e: Entry): Bytes {
    Decimal(n) + [COMMA] + Decimal(e.offset) + [COMMA] + Decimal(e.length) + [NEWLINE]
  }

  /** A line without its end; a carriage return before the newline belongs to the end. */
  function StripReturn(line: Bytes): Bytes {
    if line != [] && line[|line| - 1] == RETURN then line[..|line| - 1] else line
  }

  function ParseLine(line: Bytes): Option<(nat, Entry)> {
    match Find(line, [COMMA], 0)
    case None => None
    case Some(i) =>
      match Find(line, [COMMA], i + 1)
      case None => None
      case Some(j) =>
        var (n, offset, length) :=
          (ParseUnsigned(line[..i], U64), ParseUnsigned(line[i + 1..j], U64), ParseUnsigned(line[j + 1..], U64));
        if n.Some? && offset.Some? && length.Some? then Some((n.value, Entry(offset.value, length.value))) else None
  }

  /** Read the index line by line; a later line for a number replaces an earlier one. */
  function LoadIndex(text: Bytes, index: map<nat, Entry>): Option<map<nat, Entry>>
    decreases |text|
  {
    if text == [] then Some(index)
    else
      var newline := Find(text, [NEWLINE], 0);
      var line := if newline.Some? then StripReturn(text[..newline.value]) else text;
      var rest := if newline.Some? then text[newline.value + 1..] else [];
      match ParseLine(line)
      case None => None
      case Some((n, e)) => LoadIndex(rest, index[n := e])
  }

  lemma DecimalHasNo(n: nat, b: byte)
    requires !IsDigit(b)
    ensures b !in Decimal(n)
  {
  }

  /** Where the commas of a line are and what stands between them. */
  lemma SplitAtCommas(a: Bytes, b: Bytes, c: Bytes)
    requires COMMA !in a && COMMA !in b
    ensures var line := a + [COMMA] + b + [COMMA] + c;
            var (i, j) := (|a|, |a| + 1 + |b|);
            && Find(line, [COMMA], 0) == Some(i) && Find(line, [COMMA], i + 1) == Some(j)
            && line[..i] == a && line[i + 1..j] == b && line[j + 1..] == c
  {
    hide Find;
    var line := a + [COMMA] + b + [COMMA] + c;
    assert line == [] + a + [COMMA] + (b + [COMMA] + c);
    FindByte([], a, COMMA, b + [COMMA] + c);
    FindByte(a + [COMMA], b, COMMA, c);
  }

  /** A printed index line reads back. */
  lemma LineReadsBack(n: nat, e: Entry)
    requires n < U64 && e.offset < U64 && e.length < U64
    ensures var line := IndexLine(n, e);
            ParseLine(line[..|line| - 1]) == Some((n, e)) && StripReturn(line[..|line| - 1]) == line[..|line| - 1]
    ensures NEWLINE !in IndexLine(n, e)[..|IndexLine(n, e)| - 1]
  {
    hide Find, ParseUnsigned, Decimal;
    var (a, b, c) := (Decimal(n), Decimal(e.offset), Decimal(e.length));
    var line := a + [COMMA] + b + [COMMA] + c;
    assert IndexLine(n, e) == line + [NEWLINE];
    assert IndexLine(n, e)[..|line|] == line;
    DecimalHasNo(n, COMMA);
    DecimalHasNo(e.offset, COMMA);
    SplitAtCommas(a, b, c);
    ParseDecimal(n, U64);
    ParseDecimal(e.offset, U64);
    ParseDecimal(e.length, U64);
    DecimalHasNo(n, NEWLINE);
    DecimalHasNo(e.offset, NEWLINE);
    DecimalHasNo(e.length, NEWLINE);
    assert line[|line| - 1] == c[|c| - 1] && IsDigit(c[|c| - 1]);
  }

  /** A text of whole lines. */
  predicate WholeLines(text: Bytes) { text == [] || text[|text| - 1] == NEWLINE }

  /** Loading a text that starts with a whole line. */
  lemma {:induction false} LoadFirstLine(line: Bytes, rest: Bytes, index: map<nat, Entry>)
    requires NEWLINE !in line
    ensures LoadIndex(line + [NEWLINE] + rest, index) ==
            match ParseLine(StripReturn(line)) case None => None case Some((n, e)) => LoadIndex(rest, index[n := e])
  {
    hide Find, ParseLine, StripReturn;
    var text := line + [NEWLINE] + rest;
    assert text == [] + line + [NEWLINE] + rest;
    FindByte([], line, NEWLINE, rest);
    assert text[..|line|] == line && text[|line| + 1..] == rest;
  }

  /** Every text of whole lines that is not empty has a first line. */
  lemma FirstLine(text: Bytes) returns (line: Bytes, rest: Bytes)
    requires text != [] && WholeLines(text)
    ensures text == line + [NEWLINE] + rest && NEWLINE !in line && WholeLines(rest)
  {
    assert Occurs(text, [NEWLINE], |text| - 1) by { assert text[|text| - 1..] == [NEWLINE]; }
    var k := Find(text, [NEWLINE], 0).value;
    line, rest := text[..k], text[k + 1..];
    forall i: nat | i < k ensures text[i] != NEWLINE {
      assert text[i..i + 1] == [text[i]];
      assert !Occurs(text, [NEWLINE], i);
    }
    assert text[k..k + 1] == [NEWLINE];
    assert rest != [] ==> rest[|rest| - 1] == text[|text| - 1];
  }

  /** Appending a line inserts its entry into the index. */
  lemma {:induction false} AppendLine(text: Bytes, index: map<nat, Entry>, n: nat, e: Entry)
    requires n < U64 && e.offset < U64 && e.length < U64 && WholeLines(text) && LoadIndex(text, index).Some?
    ensures LoadIndex(text + IndexLine(n, e), index) == Some(LoadIndex(text, index).value[n := e])
    ensures WholeLines(text + IndexLine(n, e))
    decreases |text|
  {
    hide LoadIndex, ParseLine, IndexLine, StripReturn;
    var added := IndexLine(n, e);
    LineEnds(n, e);
    if text == [] {
      var s := added[..|added| - 1];
      LineReadsBack(n, e);
      assert text + added == s + [NEWLINE] + [];
      LoadFirstLine(s, [], index);
      LoadNothing(index);
      LoadNothing(index[n := e]);
    } else {
      var line, rest := FirstLine(text);
      LoadFirstLine(line, rest, index);
      LoadFirstLine(line, rest + added, index);
      assert text + added == line + [NEWLINE] + (rest + added);
      var (m, d) := ParseLine(StripReturn(line)).value;
      AppendLine(rest, index[m := d], n, e);
    }
  }

  lemma LoadNothing(index: map<nat, Entry>)
    ensures LoadIndex([], index) == Some(index)
  {
  }

  lemma LineEnds(n: nat, e: Entry)
    ensures IndexLine(n, e) != [] && IndexLine(n, e)[|IndexLine(n, e)| - 1] == NEWLINE
  {
  }

  // ----- the counters -----

  function Padded(n: nat): Bytes {
    var d := Decimal(n);
    if |d| < 20 then Zeros(20 - |d|) + d else d
  }

  function SeqnumsLine(sender: nat, target: nat): Bytes { Padded(sender) + SEPARATOR + Padded(target) }

  predicate IsSpace(b: byte) { b == SPACE || 9 <= b <= 13 }

  function Trim(s: Bytes): Bytes {
    if s != [] && IsSpace(s[0]) then Trim(s[1..])
    else if s != [] && IsSpace(s[|s| - 1]) then Trim(s[..|s| - 1])
    else s
  }

  datatype Counters = Absent | Found(sender: nat, target: nat) | Corrupt

  function LoadCounters(text: Bytes): Counters {
    var s := Trim(text);
    match Find(s, SEPARATOR, 0)
    case None => Absent
    case Some(i) =>
      var (a, b) := (ParseUnsigned(Trim(s[..i]), U64), ParseUnsigned(Trim(s[i + 3..]), U64));
      if a.Some? && b.Some? then Found(a.value, b.value) else Corrupt
  }

  /** Overwrite from the start of the file, leaving behind whatever is longer. */
  function Overwrite(file: Bytes, text: Bytes): Bytes {
    text + (if |file| > |text| then file[|text|..] else [])
  }

  lemma DecimalShrinks(n: nat)
    ensures |Decimal(n)| <= 1 + |Decimal(n / 10)|
    ensures n < 10 ==> |Decimal(n)| == 1
  {
  }

  lemma FiveDigits(n: nat)
    ensures |Decimal(n)| <= 5 + |Decimal(n / 100_000)|
    ensures n < 100_000 ==> |Decimal(n)| <= 5
  {
    hide Decimal;
    var (a, b, c, d) := (n / 10, n / 100, n / 1000, n / 10_000);
    assert a / 10 == b && b / 10 == c && c / 10 == d && d / 10 == n / 100_000;
    DecimalShrinks(n);
    DecimalShrinks(a);
    DecimalShrinks(b);
    DecimalShrinks(c);
    DecimalShrinks(d);
  }

  /** A 64-bit number has at most 20 digits. */
  lemma TwentyDigits(n: nat)
    requires n < U64
    ensures |Decimal(n)| <= 20
  {
    hide Decimal;
    var a := n / 100_000;
    var b := a / 100_000;
    var c := b / 100_000;
    assert c < 100_000;
    FiveDigits(n);
    FiveDigits(a);
    FiveDigits(b);
    FiveDigits(c);
  }

  /** A padded counter is 20 digits wide and keeps its value. */
  lemma PaddedIsFixedWidth(n: nat)
    requires n < U64
    ensures |Padded(n)| == 20 && AllDigits(Padded(n)) && ParseUnsigned(Padded(n), U64) == Some(n)
  {
    var d := Decimal(n);
    TwentyDigits(n);
    ValueOfDecimal(n);
    ValueIgnoresZeros(20 - |d|, d);
    assert IsDigit(Padded(n)[0]);
    if |d| == 20 {
      assert Padded(n) == d;
    }
  }

  lemma TrimKeeps(s: Bytes)
    requires s != [] && !IsSpace(s[0]) && !IsSpace(s[|s| - 1])
    ensures Trim(s) == s
  {
  }

  /** The counters line is 43 bytes long and reads back. */
  lemma CountersReadBack(sender: nat, target: nat)
    requires sender < U64 && target < U64
    ensures var line := SeqnumsLine(sender, target);
            |line| == 43 && LoadCounters(line) == Found(sender, target)
  {
    hide Padded, ParseUnsigned, Find, Trim;
    PaddedIsFixedWidth(sender);
    PaddedIsFixedWidth(target);
    var line := SeqnumsLine(sender, target);
    var (a, b) := (Padded(sender), Padded(target));
    assert IsDigit(a[0]) && IsDigit(a[19]) && IsDigit(b[0]) && IsDigit(b[19]);
    TrimKeeps(line);
    TrimKeeps(a);
    TrimKeeps(b);
    assert line[..20] == a && line[23..] == b && line[20..23] == SEPARATOR;
    forall i: nat | i < 20 ensures !Occurs(line, SEPARATOR, i) {
      assert line[i..i + 3][0] == a[i] && IsDigit(a[i]);
    }
    FindIs(line, SEPARATOR, 0, 20);
  }

  // ----- loading -----

  /** What a store knows after loading its files. */
  datatype Loaded = Loaded(nextSender: nat, nextTarget: nat, created: int, index: map<nat, Entry>)

  /** A missing creation time is replaced by the present. */
  function Load(d: Disk, now: int): Option<Loaded> {
    var counters := LoadCounters(d.seqnums);
    var index := LoadIndex(d.header, map[]);
    if counters.Corrupt? || index.None? then None
    else
      var (sender, target) := if counters.Found? then (counters.sender, counters.target) else (1, 1);
      Some(Loaded(sender, target, if d.session.Some? then d.session.value else now, index.value))
  }

  // ----- what loading puts up with -----

  /** Space, tab, line feed, vertical tab, form feed and carriage return. */
  ghost predicate Blank(s: Bytes) { forall j | 0 <= j < |s| :: s[j] in {9, 10, 11, 12, 13, 32} }

  /** Blanks around the counters line are ignored. */
  lemma {:induction false} TrimStrips(a: Bytes, s: Bytes, b: Bytes)
    requires Blank(a) && Blank(b) && s != [] && !Blank([s[0]]) && !Blank([s[|s| - 1]])
    ensures Trim(a + s + b) == s
    decreases |a| + |b|
  {
    var all := a + s + b;
    if a != [] {
      assert all[0] == a[0] && all[1..] == a[1..] + s + b;
      TrimStrips(a[1..], s, b);
    } else if b != [] {
      assert !IsSpace(s[0]) by { assert [s[0]][0] == s[0]; }
      assert all[0] == s[0] && all[|all| - 1] == b[|b| - 1] && all[..|all| - 1] == a + s + b[..|b| - 1];
      TrimStrips(a, s, b[..|b| - 1]);
    } else {
      assert !IsSpace(s[0]) && !IsSpace(s[|s| - 1]) by { assert [s[0]][0] == s[0] && [s[|s| - 1]][0] == s[|s| - 1]; }
      assert all == s;
      TrimKeeps(s);
    }
  }

  /** Index lines may end in carriage return and line feed. */
  lemma {:induction false} ReturnIsStripped(n: nat, e: Entry, rest: Bytes, index: map<nat, Entry>)
    requires n < U64 && e.offset < U64 && e.length < U64
    ensures var line := IndexLine(n, e)[..|IndexLine(n, e)| - 1];
            LoadIndex(line + [RETURN] + [NEWLINE] + rest, index) == LoadIndex(rest, index[n := e])
  {
    hide ParseLine, LoadIndex, Decimal;
    var line := IndexLine(n, e)[..|IndexLine(n, e)| - 1];
    LineReadsBack(n, e);
    assert StripReturn(line + [RETURN]) == line by { assert (line + [RETURN])[..|line|] == line; }
    LoadFirstLine(line + [RETURN], rest, index);
  }
}

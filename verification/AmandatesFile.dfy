/** The file in which the last dump dates are kept. */
module AmandatesFile {
  import opened Text
  import opened Quoting
  import opened EstimateRequests
  import opened AmandatesStore

  // ---------- writing ----------

  function LevelRecords(e: Entry, level: nat): (r: seq<Record>)
    requires level <= DUMP_LEVELS
    decreases DUMP_LEVELS - level
  {
    if level == DUMP_LEVELS then []
    else (if e.dates[level] == EPOCH then [] else [Record(e.name, level, e.dates[level])]) + LevelRecords(e, level + 1)
  }

  /** Everything that is written, in order. */
  function RecordsOf(list: seq<Entry>): seq<Record> {
    if list == [] then [] else LevelRecords(list[0], 0) + RecordsOf(list[1..])
  }

  function RecordText(r: Record): seq<byte> {
    Quote(r.name) + ([SPACE] + Signed(r.level) + [SPACE] + Signed(r.date))
  }

  function Write(records: seq<Record>): seq<byte> {
    if records == [] then [] else RecordText(records[0]) + [NEWLINE] + Write(records[1..])
  }

  function Serialize(list: seq<Entry>): seq<byte> {
    Write(RecordsOf(list))
  }

  // ---------- reading ----------

  /** To the next field, or to a newline. */
  function SkipSpaces(s: seq<byte>): (r: seq<byte>)
    ensures |r| <= |s|
  {
    if s != [] && IsSpace(s[0]) && s[0] != NEWLINE then SkipSpaces(s[1..]) else s
  }

  /** What sscanf passes over before a number. */
  function SkipBlanks(s: seq<byte>): seq<byte> {
    if s != [] && (s[0] == SPACE || 9 <= s[0] <= 13) then SkipBlanks(s[1..]) else s
  }

  datatype Number = Number(value: int, rest: seq<byte>)

  /** How many digits there are at the front. */
  function DigitCount(s: seq<byte>): (n: nat)
    ensures n <= |s|
  {
    if s == [] || !IsDigit(s[0]) then 0 else 1 + DigitCount(s[1..])
  }

  /** An integer with its sign, at the front. */
  function ScanHere(t: seq<byte>): Option<Number> {
    var sign := if t != [] && (t[0] == MINUS || t[0] == PLUS) then 1 else 0;
    var n := DigitCount(t[sign..]);
    if n == 0 then None
    else
      var value: int := Decimal(0, t[sign..]);
      Some(Number(if t[0] == MINUS then 0 - value else value, t[sign + n..]))
  }

  /** One integer conversion of sscanf. */
  function ScanNumber(s: seq<byte>): Option<Number> {
    ScanHere(SkipBlanks(s))
  }

  const PLUS: byte := 43

  /** A name, a level and a date; other lines are passed over. */
  function ParseLine(line: seq<byte>): Option<Record> {
    var s := SkipSpaces(line);
    if s == [] then None
    else
      var n := SkipQuoted(s, false);
      var t := SkipSpaces(s[n..]);
      if t == [] then None
      else
        match ScanNumber(t)
        case None => None
        case Some(level) =>
          match ScanNumber(level.rest)
          case None => None
          case Some(date) =>
            if 0 <= level.value < DUMP_LEVELS then Some(Record(Unquote(s[..n]), level.value, date.value)) else None
  }

  function ParseAll(lines: seq<seq<byte>>): seq<Record> {
    if lines == [] then []
    else (match ParseLine(lines[0]) case None => [] case Some(r) => [r]) + ParseAll(lines[1..])
  }

  function Load(dd: Dumpdates, file: seq<byte>): (list: seq<Entry>)
    ensures Good(list)
  {
    EnterAll(dd, ParseAll(Lines(file)))
  }

  // ---------- what is written is read ----------

  lemma {:induction false} DigitsCounted(d: seq<byte>, rest: seq<byte>)
    requires (forall i | 0 <= i < |d| :: IsDigit(d[i])) && (rest == [] || !IsDigit(rest[0]))
    ensures DigitCount(d + rest) == |d|
  {
    if d == [] {
      assert d + rest == rest;
    } else {
      assert (d + rest)[1..] == d[1..] + rest;
      DigitsCounted(d[1..], rest);
    }
  }

  /** A number that was printed is scanned, also after a blank. */
  lemma NumberRead(n: int, rest: seq<byte>)
    requires rest == [] || !IsDigit(rest[0])
    ensures ScanNumber([SPACE] + Signed(n) + rest) == Some(Number(n, rest))
    ensures ScanNumber(Signed(n) + rest) == Some(Number(n, rest))
  {
    var t := Signed(n) + rest;
    assert [SPACE] + Signed(n) + rest == [SPACE] + t;
    if n < 0 {
      NegativeRead(-n, rest);
    } else {
      PositiveRead(n, rest);
    }
    SignedStarts(n);
    hide Signed, ScanHere;
    assert t[0] == Signed(n)[0];
    BlankSkipped(t);
  }

  lemma SignedStarts(n: int)
    ensures Signed(n) != [] && Signed(n)[0] > SPACE
  {}

  lemma BlankSkipped(t: seq<byte>)
    requires t != [] && t[0] != SPACE && !(9 <= t[0] <= 13)
    ensures SkipBlanks(t) == t && SkipBlanks([SPACE] + t) == t
  {
    assert ([SPACE] + t)[1..] == t;
  }

  lemma NegativeRead(n: nat, rest: seq<byte>)
    requires rest == [] || !IsDigit(rest[0])
    ensures ScanHere([MINUS] + Digits(n) + rest) == Some(Number(0 - n, rest))
  {
    var t := [MINUS] + Digits(n) + rest;
    hide Digits, DigitCount, Decimal;
    PrintedNumber(n, rest, Digits(n) + rest);
    assert t[1..] == Digits(n) + rest;
    assert t[1 + |Digits(n)|..] == rest;
  }

  lemma PositiveRead(n: nat, rest: seq<byte>)
    requires rest == [] || !IsDigit(rest[0])
    ensures ScanHere(Digits(n) + rest) == Some(Number(n, rest))
  {
    var t := Digits(n) + rest;
    assert IsDigit(t[0]) by { assert t[0] == Digits(n)[0]; }
    hide Digits, DigitCount, Decimal;
    PrintedNumber(n, rest, t);
    assert t[0..] == t;
    assert t[|Digits(n)|..] == rest;
  }

  lemma PrintedNumber(n: nat, rest: seq<byte>, t: seq<byte>)
    requires t == Digits(n) + rest && (rest == [] || !IsDigit(rest[0]))
    ensures DigitCount(t) == |Digits(n)| > 0 && Decimal(0, t) == n
  {
    DigitsCounted(Digits(n), rest);
    DecimalDigits(n, rest);
  }

  predicate Written(r: Record) {
    0 <= r.level < DUMP_LEVELS
  }

  lemma QuoteStarts(s: seq<byte>)
    ensures Quote(s)[0] > SPACE
  {}

  lemma LineParsed(r: Record)
    requires Written(r)
    ensures ParseLine(RecordText(r)) == Some(r)
  {
    var tail := Signed(r.level) + ([SPACE] + Signed(r.date));
    assert RecordText(r) == Quote(r.name) + ([SPACE] + tail);
    QuoteStarts(r.name);
    QuotedFound(r.name, tail);
    QuoteRoundTrip(r.name);
    hide Quote, SkipQuoted, Unquote, ScanNumber, ScanHere, Signed;
    var s := RecordText(r);
    assert SkipSpaces(s) == s;
    assert s[..|Quote(r.name)|] == Quote(r.name) && s[|Quote(r.name)|..] == [SPACE] + tail;
    AfterName(r, tail);
  }

  lemma AfterName(r: Record, tail: seq<byte>)
    requires tail == Signed(r.level) + ([SPACE] + Signed(r.date))
    ensures SkipSpaces([SPACE] + tail) == tail != []
    ensures ScanNumber(tail) == Some(Number(r.level, [SPACE] + Signed(r.date)))
    ensures ScanNumber([SPACE] + Signed(r.date)) == Some(Number(r.date, []))
  {
    assert ([SPACE] + tail)[1..] == tail;
    assert tail[0] == Signed(r.level)[0] && !IsSpace(tail[0]);
    NumberRead(r.level, [SPACE] + Signed(r.date));
    NumberRead(r.date, []);
    assert [SPACE] + Signed(r.date) + [] == [SPACE] + Signed(r.date);
  }

  lemma SignedBland(n: int)
    ensures Bland(Signed(n))
  {}

  lemma {:induction false} WrittenIsRead(records: seq<Record>)
    requires forall k | 0 <= k < |records| :: Written(records[k])
    ensures ParseAll(Lines(Write(records))) == records
  {
    if records != [] {
      var r := records[0];
      var tail := [SPACE] + Signed(r.level) + [SPACE] + Signed(r.date);
      SignedBland(r.level);
      SignedBland(r.date);
      hide Quote, Agets, Signed, ParseLine;
      LineRead(r.name, tail, Write(records[1..]));
      LineParsed(r);
      WrittenIsRead(records[1..]);
      assert Lines(Write(records)) == [RecordText(r)] + Lines(Write(records[1..]));
      assert ([RecordText(r)] + Lines(Write(records[1..])))[1..] == Lines(Write(records[1..]));
    }
  }

  // ---------- the dates that are written ----------

  lemma {:induction false} LevelRecordsAre(e: Entry, level: nat)
    requires level <= DUMP_LEVELS
    ensures forall k | 0 <= k < |LevelRecords(e, level)| ::
      Written(LevelRecords(e, level)[k]) && LevelRecords(e, level)[k].name == e.name
    decreases DUMP_LEVELS - level
  {
    if level < DUMP_LEVELS {
      LevelRecordsAre(e, level + 1);
    }
  }

  lemma {:induction false} RecordsWritten(list: seq<Entry>)
    ensures forall k | 0 <= k < |RecordsOf(list)| :: Written(RecordsOf(list)[k])
  {
    if list != [] {
      LevelRecordsAre(list[0], 0);
      RecordsWritten(list[1..]);
    }
  }

  lemma {:induction false} LatestAppend(x: seq<Record>, y: seq<Record>, name: seq<byte>, level: nat)
    ensures LatestGiven(x + y, name, level) == Max(LatestGiven(x, name, level), LatestGiven(y, name, level))
    ensures Mentions(x + y, name) <==> Mentions(x, name) || Mentions(y, name)
    decreases |y|
  {
    if y == [] {
      assert x + y == x;
      LatestIfMentioned(x, name, level);
    } else {
      assert (x + y)[..|x + y| - 1] == x + y[..|y| - 1];
      LatestAppend(x, y[..|y| - 1], name, level);
      MentionsLast(x + y, name);
      MentionsLast(y, name);
    }
  }

  lemma OneRecord(r: Record, name: seq<byte>, level: nat)
    ensures LatestGiven([r], name, level) == if r.name == name && r.level == level then Max(EPOCH, r.date) else EPOCH
    ensures Mentions([r], name) <==> r.name == name
  {
    assert [r][..0] == [];
    assert [r][0] == r;
  }

  predicate Dated(e: Entry, level: nat) {
    exists k | level <= k < DUMP_LEVELS :: e.dates[k] != EPOCH
  }

  lemma DatedFirst(e: Entry, level: nat)
    requires level < DUMP_LEVELS
    ensures Dated(e, level) <==> e.dates[level] != EPOCH || Dated(e, level + 1)
  {}

  lemma {:induction false} LevelRecordsMention(e: Entry, level: nat, name: seq<byte>)
    requires level <= DUMP_LEVELS
    ensures Mentions(LevelRecords(e, level), name) <==> name == e.name && Dated(e, level)
    decreases DUMP_LEVELS - level
  {
    hide Mentions, LevelRecords;
    if level == DUMP_LEVELS {
      NoRecords(e, name, 0);
      NoneMentioned(name);
    } else {
      LevelRecordsMention(e, level + 1, name);
      LevelFirst(e, level);
      DatedFirst(e, level);
      if e.dates[level] != EPOCH {
        var r := Record(e.name, level, e.dates[level]);
        LatestAppend([r], LevelRecords(e, level + 1), name, 0);
        OneRecord(r, name, 0);
      }
    }
  }

  lemma LevelFirst(e: Entry, level: nat)
    requires level < DUMP_LEVELS
    ensures LevelRecords(e, level) ==
      if e.dates[level] == EPOCH then LevelRecords(e, level + 1)
      else [Record(e.name, level, e.dates[level])] + LevelRecords(e, level + 1)
  {}

  lemma NoRecords(e: Entry, name: seq<byte>, l: nat)
    ensures LevelRecords(e, DUMP_LEVELS) == [] && LatestGiven([], name, l) == EPOCH
  {}

  predicate NotEarly(e: Entry) {
    forall k | 0 <= k < DUMP_LEVELS :: e.dates[k] >= EPOCH
  }

  lemma {:induction false} LevelRecordsLatest(e: Entry, level: nat, name: seq<byte>, l: nat)
    requires level <= DUMP_LEVELS && l < DUMP_LEVELS && NotEarly(e)
    ensures LatestGiven(LevelRecords(e, level), name, l) == if name == e.name && level <= l then e.dates[l] else EPOCH
    decreases DUMP_LEVELS - level
  {
    hide LatestGiven, LevelRecords;
    if level == DUMP_LEVELS {
      NoRecords(e, name, l);
    } else {
      LevelRecordsLatest(e, level + 1, name, l);
      LevelFirst(e, level);
      if e.dates[level] != EPOCH {
        var r := Record(e.name, level, e.dates[level]);
        LatestAppend([r], LevelRecords(e, level + 1), name, l);
        OneRecord(r, name, l);
      }
    }
  }

  lemma {:induction false} RecordsMention(list: seq<Entry>, name: seq<byte>)
    requires Sorted(list)
    ensures Mentions(RecordsOf(list), name) <==> Has(list, name) && Dated(list[Place(list, name)], 0)
  {
    hide LevelRecords, Less, Mentions, Dated;
    if list == [] {
      NoneMentioned(name);
    } else {
      RecordsMention(list[1..], name);
      LevelRecordsMention(list[0], 0, name);
      LatestAppend(LevelRecords(list[0], 0), RecordsOf(list[1..]), name, 0);
      FirstOrLater(list, name);
    }
  }

  lemma NoneMentioned(name: seq<byte>)
    ensures !Mentions([], name)
  {}

  /** A name is the first of a sorted list, or in the rest. */
  lemma FirstOrLater(list: seq<Entry>, name: seq<byte>)
    requires Sorted(list) && list != []
    ensures list[0].name == name ==> Has(list, name) && Place(list, name) == 0 && !Has(list[1..], name)
    ensures list[0].name != name ==> (Has(list, name) <==> Has(list[1..], name))
    ensures list[0].name != name && Has(list, name) ==> Place(list, name) == 1 + Place(list[1..], name)
  {
    hide Less;
    var rest := list[1..];
    LessIsStrict(list[0].name, name);
    if list[0].name == name {
      LessIsStrict(name, name);
      if rest != [] {
        assert Less(list[0].name, list[1].name);
        NotBefore(rest, name);
      }
    } else if Less(name, list[0].name) {
      NotBefore(list, name);
      if rest != [] {
        LessIsTransitive(name, list[0].name, list[1].name);
        NotBefore(rest, name);
      }
    }
  }

  lemma {:induction false} RecordsLatest(list: seq<Entry>, name: seq<byte>, l: nat)
    requires Good(list) && l < DUMP_LEVELS
    ensures LatestGiven(RecordsOf(list), name, l) == DateOf(list, name, l)
  {
    hide LevelRecords, Less, LatestGiven, Place;
    if list == [] {
      NoDates(name, l);
    } else {
      RecordsLatest(list[1..], name, l);
      LevelRecordsLatest(list[0], 0, name, l);
      LatestAppend(LevelRecords(list[0], 0), RecordsOf(list[1..]), name, l);
      FirstOrLater(list, name);
      LatestNotEarly(RecordsOf(list[1..]), name, l);
    }
  }

  lemma NoDates(name: seq<byte>, l: nat)
    requires l < DUMP_LEVELS
    ensures LatestGiven([], name, l) == EPOCH == DateOf([], name, l)
  {}

  lemma LatestNotEarly(records: seq<Record>, name: seq<byte>, l: nat)
    ensures LatestGiven(records, name, l) >= EPOCH
  {
    LatestIfMentioned(records, name, l);
  }

  // ---------- loading what was saved ----------

  /** What is loaded from a saved table: the same dates, or later ones that were imported for a
      name that has any. */
  lemma LoadedDates(dd: Dumpdates, list: seq<Entry>, name: seq<byte>, l: nat)
    requires Good(list) && l < DUMP_LEVELS
    ensures var loaded := Load(dd, Serialize(list));
      && Good(loaded)
      && DateOf(loaded, name, l) ==
         if Has(list, name) && Dated(list[Place(list, name)], 0)
         then Max(Imported(dd(name), l), DateOf(list, name, l)) else EPOCH
  {
    RecordsWritten(list);
    WrittenIsRead(RecordsOf(list));
    DatesAreLatest(dd, RecordsOf(list), name, l);
    RecordsMention(list, name);
    RecordsLatest(list, name, l);
  }

  /** A table saved with all imported dates in it loads to the same dates. */
  lemma LoadInvertsSave(dd: Dumpdates, list: seq<Entry>, name: seq<byte>, l: nat)
    requires Good(list) && l < DUMP_LEVELS
    requires forall n: seq<byte>, k: nat | k < DUMP_LEVELS && Has(list, n) :: Imported(dd(n), k) <= DateOf(list, n, k)
    ensures DateOf(Load(dd, Serialize(list)), name, l) == DateOf(list, name, l)
  {
    LoadedDates(dd, list, name, l);
  }

  // ---------- lines written by others ----------

  /** Blanks, tabs, form feeds and carriage returns. */
  predicate Blank(gap: seq<byte>) { forall i | 0 <= i < |gap| :: IsSpace(gap[i]) && gap[i] != NEWLINE }

  lemma {:induction false} GapSkipped(gap: seq<byte>, t: seq<byte>)
    requires Blank(gap) && (t == [] || (!IsSpace(t[0]) && !(9 <= t[0] <= 13)))
    ensures SkipSpaces(gap + t) == t && SkipBlanks(gap + t) == t
  {
    if gap == [] {
      assert gap + t == t;
    } else {
      assert (gap + t)[1..] == gap[1..] + t;
      GapSkipped(gap[1..], t);
    }
  }

  lemma NumberAfter(gap: seq<byte>, n: int, rest: seq<byte>)
    requires Blank(gap) && (rest == [] || !IsDigit(rest[0]))
    ensures ScanNumber(gap + (Signed(n) + rest)) == Some(Number(n, rest))
    ensures SkipSpaces(gap + (Signed(n) + rest)) == Signed(n) + rest != []
  {
    SignedStarts(n);
    var t := Signed(n) + rest;
    assert t[0] == Signed(n)[0];
    GapSkipped(gap, t);
    NumberRead(n, rest);
    assert ScanNumber(t) == ScanHere(t) by { GapSkipped([], t); assert [] + t == t; }
    hide Signed, ScanHere;
  }

  lemma NoNumber(gap: seq<byte>)
    requires Blank(gap)
    ensures ScanNumber(gap) == None && SkipSpaces(gap) == []
  {
    GapSkipped(gap, []);
    assert gap + [] == gap;
  }

  /** The name at the front of a line, and what follows it. */
  lemma NameFound(gap: seq<byte>, name: seq<byte>, after: seq<byte>)
    requires Blank(gap) && (after == [] || IsSpace(after[0]))
    ensures var s := Quote(name) + after;
      && SkipSpaces(gap + s) == s != [] && SkipQuoted(s, false) == |Quote(name)|
      && s[|Quote(name)|..] == after && Unquote(s[..|Quote(name)|]) == name
  {
    var s := Quote(name) + after;
    QuoteStarts(name);
    FoundBefore(name, after);
    QuoteRoundTrip(name);
    hide Quote, SkipQuoted, Unquote;
    assert s[0] == Quote(name)[0];
    GapSkipped(gap, s);
    assert s[..|Quote(name)|] == Quote(name);
  }

  /** A line is understood with any white space before and between its fields, and whatever follows the
      date; a level out of range is passed over. */
  lemma LineUnderstood(gap0: seq<byte>, name: seq<byte>, gap1: seq<byte>, level: int, gap2: seq<byte>, date: int, rest: seq<byte>)
    requires Blank(gap0) && Blank(gap1) && Blank(gap2) && gap1 != [] && gap2 != [] && (rest == [] || !IsDigit(rest[0]))
    ensures ParseLine(gap0 + (Quote(name) + (gap1 + (Signed(level) + (gap2 + (Signed(date) + rest)))))) ==
      if 0 <= level < DUMP_LEVELS then Some(Record(name, level, date)) else None
  {
    var last := gap2 + (Signed(date) + rest);
    assert last[0] == gap2[0];
    NumberAfter(gap2, date, rest);
    NumberAfter(gap1, level, last);
    NumberAfter([], level, last);
    assert [] + (Signed(level) + last) == Signed(level) + last;
    NameFound(gap0, name, gap1 + (Signed(level) + last));
    hide SkipSpaces, SkipQuoted, Unquote, ScanNumber, Quote, Signed;
  }

  /** A line with fewer fields is passed over. */
  lemma LinePassedOver(gap0: seq<byte>, name: seq<byte>, gap1: seq<byte>, level: int, gap2: seq<byte>)
    requires Blank(gap0) && Blank(gap1) && Blank(gap2) && gap1 != []
    ensures ParseLine(gap0) == None
    ensures ParseLine(gap0 + (Quote(name) + gap1)) == None
    ensures ParseLine(gap0 + (Quote(name) + (gap1 + (Signed(level) + gap2)))) == None
  {
    NoNumber(gap0);
    NoNumber(gap1);
    NoNumber(gap2);
    NameFound(gap0, name, gap1);
    NumberAfter(gap1, level, gap2);
    NumberAfter([], level, gap2);
    assert [] + (Signed(level) + gap2) == Signed(level) + gap2;
    NameFound(gap0, name, gap1 + (Signed(level) + gap2));
    hide SkipSpaces, SkipQuoted, Unquote, ScanNumber, Quote, Signed;
  }

  // ---------- the text of a table ----------

  /** One date is one line: the quoted name, the level, the date. */
  lemma {:induction false} OneDateText(e: Entry, level: nat, l: nat)
    requires level <= l < DUMP_LEVELS && e.dates[l] != EPOCH
    requires forall k | level <= k < DUMP_LEVELS && k != l :: e.dates[k] == EPOCH
    ensures Write(LevelRecords(e, level)) == Quote(e.name) + ([SPACE] + Signed(l) + [SPACE] + Signed(e.dates[l])) + [NEWLINE]
    decreases l - level
  {
    hide LevelRecords, Quote, Signed;
    LevelFirst(e, level);
    if level < l {
      OneDateText(e, level + 1, l);
    } else {
      NoneLeft(e, level + 1);
      WriteOne(Record(e.name, l, e.dates[l]));
    }
  }

  lemma WriteOne(r: Record)
    ensures Write([r] + []) == RecordText(r) + [NEWLINE]
  {
    hide RecordText;
    assert [r] + [] == [r] && [r][1..] == [];
    assert RecordText(r) + [NEWLINE] + [] == RecordText(r) + [NEWLINE];
  }

  lemma {:induction false} NoneLeft(e: Entry, level: nat)
    requires level <= DUMP_LEVELS && forall k | level <= k < DUMP_LEVELS :: e.dates[k] == EPOCH
    ensures LevelRecords(e, level) == []
    decreases DUMP_LEVELS - level
  {
    if level < DUMP_LEVELS {
      NoneLeft(e, level + 1);
    }
  }
}

/** The byte format of an Amanda archive: record headers, archive headers, and a
    pure parser that cuts a byte sequence into items without any reading state. */
module AmarFormat {
  import opened Text

  type u16 = n: int | 0 <= n < 65536

  const HEADER_SIZE := 28
  const RECORD_SIZE := 8
  const MAGIC_FILENUM: u16 := 0x414d
  const HEADER_VERSION := 1
  const EOA_BIT := 0x8000_0000
  const MAX_RECORD_DATA_SIZE := 4 * 1024 * 1024
  const PADDING_SIZE := 512 - RECORD_SIZE

  const ATTR_FILENAME: u16 := 0
  const ATTR_EOF: u16 := 1
  const ATTR_APP_START: u16 := 16

  // ---------- record headers ----------

  datatype RecordHeader = RecordHeader(filenum: u16, attrid: u16, size: nat, eoa: bool)

  function Be16(n: u16): (b: seq<byte>)
    ensures |b| == 2
  {
    [n / 256, n % 256]
  }

  function Num16(b: seq<byte>): u16
    requires |b| == 2
  {
    var hi: int, lo: int := b[0], b[1];
    256 * hi + lo
  }

  lemma Num16Be16(n: u16)
    ensures Num16(Be16(n)) == n
  {}

  lemma Be16Num16(b: seq<byte>)
    requires |b| == 2
    ensures Be16(Num16(b)) == b
  {}

  /** MKRECORD: numbers and size are big-endian; EOA is the top bit of the size. */
  function EncodeRecordHeader(h: RecordHeader): (b: seq<byte>)
    requires h.size < EOA_BIT
    ensures |b| == RECORD_SIZE
  {
    var s := if h.eoa then h.size + EOA_BIT else h.size;
    Be16(h.filenum) + Be16(h.attrid) + (Be16(s / 0x1_0000) + Be16(s % 0x1_0000))
  }

  /** GETRECORD */
  function DecodeRecordHeader(b: seq<byte>): (h: RecordHeader)
    requires RECORD_SIZE <= |b|
    ensures h.size < EOA_BIT
  {
    var hi: int, lo: int := Num16(b[4..6]), Num16(b[6..8]);
    var s := 0x1_0000 * hi + lo;
    RecordHeader(Num16(b[0..2]), Num16(b[2..4]), s % EOA_BIT, s >= EOA_BIT)
  }

  /** Reading back a record header gives the header that was written, whatever follows it. */
  lemma RecordHeaderRoundTrip(h: RecordHeader, rest: seq<byte>)
    requires h.size < EOA_BIT
    ensures DecodeRecordHeader(EncodeRecordHeader(h) + rest) == h
  {
    hide Be16, Num16;
    var s := if h.eoa then h.size + EOA_BIT else h.size;
    var b := EncodeRecordHeader(h) + rest;
    assert b[0..2] == Be16(h.filenum);
    assert b[2..4] == Be16(h.attrid);
    assert b[4..6] == Be16(s / 0x1_0000);
    assert b[6..8] == Be16(s % 0x1_0000);
    Num16Be16(h.filenum);
    Num16Be16(h.attrid);
    Num16Be16(s / 0x1_0000);
    Num16Be16(s % 0x1_0000);
  }

  /** ... and every eight bytes are the encoding of exactly the header they decode to. */
  lemma RecordHeaderOnto(b: seq<byte>)
    requires RECORD_SIZE <= |b|
    ensures EncodeRecordHeader(DecodeRecordHeader(b)) == b[..RECORD_SIZE]
  {
    hide Be16, Num16;
    Be16Num16(b[0..2]);
    Be16Num16(b[2..4]);
    Be16Num16(b[4..6]);
    Be16Num16(b[6..8]);
    assert b[..RECORD_SIZE] == b[0..2] + b[2..4] + (b[4..6] + b[6..8]);
  }

  // ---------- archive headers ----------

  /** "AMANDA ARCHIVE FORMAT" */
  const MAGIC_TEXT: seq<byte> :=
    [65, 77, 65, 78, 68, 65, 32, 65, 82, 67, 72, 73, 86, 69, 32, 70, 79, 82, 77, 65, 84]

  /** The preformatted header: magic text, a space, the version, NUL padding. */
  const HEADER_BYTES: seq<byte> := MAGIC_TEXT + [32, 49, 0, 0, 0, 0, 0]

  /** The version scanned from a header, if it is one. */
  function HeaderVersion(b: seq<byte>): Option<nat>
    requires HEADER_SIZE <= |b|
  {
    if b[..21] == MAGIC_TEXT && b[21] == 32 && IsDigit(b[22])
    then Some(Decimal(0, b[22..HEADER_SIZE]))
    else None
  }

  // ---------- items ----------

  datatype Item =
    | Header
    | Rec(filenum: u16, attrid: u16, eoa: bool, data: seq<byte>)

  predicate Fits(item: Item) {
    item.Rec? ==> |item.data| <= MAX_RECORD_DATA_SIZE
  }

  predicate AllFit(items: seq<Item>) {
    forall k | 0 <= k < |items| :: Fits(items[k])
  }

  function EncodeItem(item: Item): (b: seq<byte>)
    requires Fits(item)
    ensures |b| == if item.Header? then HEADER_SIZE else RECORD_SIZE + |item.data|
  {
    match item
    case Header => HEADER_BYTES
    case Rec(f, a, eoa, data) => EncodeRecordHeader(RecordHeader(f, a, |data|, eoa)) + data
  }

  function Encode(items: seq<Item>): seq<byte>
    requires AllFit(items)
  {
    if items == [] then [] else EncodeItem(items[0]) + Encode(items[1..])
  }

  lemma {:induction false} EncodeAppend(xs: seq<Item>, ys: seq<Item>)
    requires AllFit(xs) && AllFit(ys)
    ensures Encode(xs + ys) == Encode(xs) + Encode(ys)
  {
    hide EncodeItem;
    if xs == [] {
      assert xs + ys == ys;
    } else {
      EncodeAppend(xs[1..], ys);
      assert (xs + ys)[1..] == xs[1..] + ys;
    }
  }

  // ---------- the parser ----------

  /** Why parsing of a byte sequence ends. */
  datatype Stop =
    | Eof
    | Partial(filenum: u16, attrid: u16, eoa: bool, data: seq<byte>)
    | Padding(filenum: u16)
    | InvalidHeader
    | UnsupportedVersion(version: nat)
    | RecordTooLarge
    | EofWithData
    | EmptyName(filenum: u16)
    | NameWithoutEoa(filenum: u16)
    | UnknownAttribute(filenum: u16, attrid: u16)

  predicate IsError(stop: Stop) {
    !stop.Eof? && !stop.Partial? && !stop.Padding?
  }

  datatype Piece = Got(item: Item, len: nat) | Halt(stop: Stop)

  /** What a reader finds at the front of b. */
  function ParseOne(b: seq<byte>): (p: Piece)
    ensures p.Got? ==> RECORD_SIZE <= p.len <= |b| && Fits(p.item)
  {
    if |b| < RECORD_SIZE then Halt(Eof)
    else
      var h := DecodeRecordHeader(b);
      if h.filenum == MAGIC_FILENUM then
        if |b| < HEADER_SIZE then Halt(Eof)
        else if HeaderVersion(b) == None then Halt(InvalidHeader)
        else if HeaderVersion(b).value > HEADER_VERSION then Halt(UnsupportedVersion(HeaderVersion(b).value))
        else Got(Header, HEADER_SIZE)
      else if h.size > MAX_RECORD_DATA_SIZE then Halt(RecordTooLarge)
      else if h.attrid == ATTR_EOF then
        if h.size != 0 then Halt(EofWithData)
        else Got(Rec(h.filenum, ATTR_EOF, h.eoa, []), RECORD_SIZE)
      else if h.attrid == ATTR_FILENAME then
        if |b| < RECORD_SIZE + h.size then Halt(Eof)
        else if h.size == 0 then Halt(NamelessStop(h.filenum, b[RECORD_SIZE..]))
        else if !h.eoa then Halt(NameWithoutEoa(h.filenum))
        else Got(Rec(h.filenum, ATTR_FILENAME, true, b[RECORD_SIZE..RECORD_SIZE + h.size]), RECORD_SIZE + h.size)
      else if h.attrid < ATTR_APP_START then Halt(UnknownAttribute(h.filenum, h.attrid))
      else if |b| < RECORD_SIZE + h.size then Halt(Partial(h.filenum, h.attrid, h.eoa, b[RECORD_SIZE..]))
      else Got(Rec(h.filenum, h.attrid, h.eoa, b[RECORD_SIZE..RECORD_SIZE + h.size]), RECORD_SIZE + h.size)
  }

  /** An empty filename is taken for NUL padding when the archive ends within a block
      or the rest of the block is zero. */
  function NamelessStop(f: u16, b: seq<byte>): (stop: Stop)
    ensures stop == Padding(f) || stop == EmptyName(f)
  {
    if |b| < PADDING_SIZE || (forall i | 0 <= i < PADDING_SIZE :: b[i] == 0)
    then Padding(f) else EmptyName(f)
  }

  datatype Parsed = Parsed(items: seq<Item>, stop: Stop)

  function Parse(b: seq<byte>): (p: Parsed)
    ensures AllFit(p.items)
    decreases |b|
  {
    match ParseOne(b)
    case Halt(stop) => Parsed([], stop)
    case Got(item, len) =>
      var p := Parse(b[len..]);
      Parsed([item] + p.items, p.stop)
  }

  // ---------- what a writer may emit, and how it parses ----------

  /** The items that the archive format allows. */
  predicate WellFormed(item: Item) {
    match item
    case Header => true
    case Rec(f, a, eoa, data) =>
      && |data| <= MAX_RECORD_DATA_SIZE
      && f != MAGIC_FILENUM
      && (a == ATTR_EOF ==> data == [])
      && (a == ATTR_FILENAME ==> eoa && data != [])
      && (a == ATTR_FILENAME || a == ATTR_EOF || a >= ATTR_APP_START)
  }

  predicate AllWellFormed(items: seq<Item>) {
    forall k | 0 <= k < |items| :: WellFormed(items[k])
  }

  /** A well-formed item parses back to itself, whatever follows. */
  lemma ParseEncodedItem(item: Item, rest: seq<byte>)
    requires WellFormed(item)
    ensures ParseOne(EncodeItem(item) + rest) == Got(item, |EncodeItem(item)|)
  {
    if item.Header? {
      ParseEncodedHeader(rest);
    } else {
      ParseEncodedRecord(item.filenum, item.attrid, item.eoa, item.data, rest);
    }
  }

  lemma ParseEncodedHeader(rest: seq<byte>)
    ensures ParseOne(HEADER_BYTES + rest) == Got(Header, HEADER_SIZE)
  {
    hide Num16;
    var b := HEADER_BYTES + rest;
    assert b[..21] == MAGIC_TEXT;
    assert b[22..HEADER_SIZE] == [49, 0, 0, 0, 0, 0];
    assert Decimal(0, b[22..HEADER_SIZE]) == Decimal(1, b[22..HEADER_SIZE][1..]) == 1;
    MagicStart(b);
  }

  lemma MagicStart(b: seq<byte>)
    requires RECORD_SIZE <= |b| && b[0] == 65 && b[1] == 77
    ensures DecodeRecordHeader(b).filenum == MAGIC_FILENUM
  {
    assert b[0..2] == [65, 77];
  }

  lemma ParseEncodedRecord(f: u16, a: u16, eoa: bool, data: seq<byte>, rest: seq<byte>)
    requires WellFormed(Rec(f, a, eoa, data))
    ensures ParseOne(EncodeItem(Rec(f, a, eoa, data)) + rest) == Got(Rec(f, a, eoa, data), RECORD_SIZE + |data|)
  {
    hide EncodeRecordHeader, DecodeRecordHeader;
    var h := RecordHeader(f, a, |data|, eoa);
    var b := EncodeRecordHeader(h) + (data + rest);
    assert EncodeItem(Rec(f, a, eoa, data)) + rest == b;
    RecordHeaderRoundTrip(h, data + rest);
    assert b[RECORD_SIZE..RECORD_SIZE + |data|] == data;
  }

  /** A proper prefix of one well-formed item parses to no item and no error:
      the reader sees end of file, or part of an application record's data. */
  lemma ParseTruncatedItem(item: Item, n: nat)
    requires WellFormed(item) && n < |EncodeItem(item)|
    ensures ParseOne(EncodeItem(item)[..n]) == Halt(TruncatedStop(item, n))
  {
    hide EncodeRecordHeader, DecodeRecordHeader;
    var b := EncodeItem(item)[..n];
    if RECORD_SIZE <= n {
      match item
      case Header =>
        assert b[0] == HEADER_BYTES[0] == 65 && b[1] == HEADER_BYTES[1] == 77;
        MagicStart(b);
      case Rec(f, a, eoa, data) =>
        var h := RecordHeader(f, a, |data|, eoa);
        assert b == EncodeRecordHeader(h) + data[..n - RECORD_SIZE];
        RecordHeaderRoundTrip(h, data[..n - RECORD_SIZE]);
        assert b[RECORD_SIZE..] == data[..n - RECORD_SIZE];
    }
  }

  function TruncatedStop(item: Item, n: nat): Stop
    requires Fits(item) && n < |EncodeItem(item)|
  {
    if item.Rec? && item.attrid >= ATTR_APP_START && RECORD_SIZE <= n
    then Partial(item.filenum, item.attrid, item.eoa, item.data[..n - RECORD_SIZE])
    else Eof
  }

  /** Parsing inverts encoding. */
  lemma {:induction false} ParseEncode(items: seq<Item>)
    requires AllWellFormed(items)
    ensures Parse(Encode(items)) == Parsed(items, Eof)
  {
    ParseEncodeThen(items, []);
    assert Encode(items) + [] == Encode(items);
    assert items + [] == items;
  }

  lemma {:induction false} ParseEncodeThen(items: seq<Item>, rest: seq<byte>)
    requires AllWellFormed(items)
    ensures Parse(Encode(items) + rest) == Parsed(items + Parse(rest).items, Parse(rest).stop)
  {
    hide EncodeItem, ParseOne;
    if items == [] {
      assert Encode(items) + rest == rest;
      assert items + Parse(rest).items == Parse(rest).items;
    } else {
      var tail := Encode(items[1..]) + rest;
      assert Encode(items) + rest == EncodeItem(items[0]) + tail;
      ParseEncodedItem(items[0], tail);
      assert (EncodeItem(items[0]) + tail)[|EncodeItem(items[0])|..] == tail;
      ParseEncodeThen(items[1..], rest);
      assert items + Parse(rest).items == [items[0]] + (items[1..] + Parse(rest).items);
    }
  }

  /** The number of leading items that lie wholly within the first n bytes. */
  function WholeItems(items: seq<Item>, n: nat): (k: nat)
    requires AllFit(items)
    ensures k <= |items|
  {
    if items == [] || n < |EncodeItem(items[0])| then 0
    else 1 + WholeItems(items[1..], n - |EncodeItem(items[0])|)
  }

  lemma {:induction false} WholeItemsLength(items: seq<Item>, n: nat)
    requires AllFit(items)
    requires n <= |Encode(items)|
    ensures |Encode(items[..WholeItems(items, n)])| <= n
    ensures WholeItems(items, n) < |items|
            ==> n - |Encode(items[..WholeItems(items, n)])| < |EncodeItem(items[WholeItems(items, n)])|
    ensures WholeItems(items, n) == |items| ==> n == |Encode(items)|
  {
    hide EncodeItem;
    var k := WholeItems(items, n);
    if k > 0 {
      WholeItemsLength(items[1..], n - |EncodeItem(items[0])|);
      assert items[..k][1..] == items[1..][..k - 1];
      assert items[..k][0] == items[0];
    }
  }

  /** Every byte prefix of a well-formed archive parses to the items wholly inside it,
      and stops at end of file or inside one application record: never with an error. */
  lemma {:induction false} ParsePrefix(items: seq<Item>, n: nat)
    requires AllWellFormed(items)
    requires n <= |Encode(items)|
    ensures var k := WholeItems(items, n);
      && |Encode(items[..k])| <= n
      && (k < |items| ==> n - |Encode(items[..k])| < |EncodeItem(items[k])|)
      && Parse(Encode(items)[..n]) ==
         Parsed(items[..k], if k == |items| then Eof else TruncatedStop(items[k], n - |Encode(items[..k])|))
  {
    hide EncodeItem;
    var k := WholeItems(items, n);
    WholeItemsLength(items, n);
    var front, back := items[..k], items[k..];
    assert items == front + back;
    EncodeAppend(front, back);
    var m := n - |Encode(front)|;
    if k == |items| {
      assert Encode(items)[..n] == Encode(items);
      assert items[..k] == items;
      ParseEncode(items);
    } else {
      assert back[0] == items[k];
      assert Encode(items)[..n] == Encode(front) + EncodeItem(items[k])[..m];
      ParseEncodeThen(front, EncodeItem(items[k])[..m]);
      ParseTruncatedItem(items[k], m);
      assert front + [] == front;
    }
  }

  /** The magic text goes on with "AN". */
  lemma MagicTextNext(b: seq<byte>)
    requires HEADER_SIZE <= |b|
    ensures b[..21] == MAGIC_TEXT ==> Num16(b[2..4]) == 0x414e
  {
    if b[..21] == MAGIC_TEXT {
      assert b[2] == b[..21][2] == 65 && b[3] == b[..21][3] == 78;
      assert b[2..4] == [65, 78];
    }
  }

  /** A record of file number 0x414d cannot be read back: its first bytes are those of a header.
      With enough bytes after it, it stops the read, unless the attribute's number and the bytes after
      it make up the text of a header, and is never taken for a record. */
  lemma MagicFilenumUnreadable(attrid: u16, eoa: bool, data: seq<byte>, rest: seq<byte>)
    requires |data| <= MAX_RECORD_DATA_SIZE
    requires HEADER_SIZE <= RECORD_SIZE + |data| + |rest|
    ensures var p := ParseOne(EncodeItem(Rec(MAGIC_FILENUM, attrid, eoa, data)) + rest);
      (p.Got? ==> p.item == Header) && (attrid != 0x414e ==> p == Halt(InvalidHeader))
  {
    var h := RecordHeader(MAGIC_FILENUM, attrid, |data|, eoa);
    var b := EncodeItem(Rec(MAGIC_FILENUM, attrid, eoa, data)) + rest;
    assert b == EncodeRecordHeader(h) + (data + rest);
    RecordHeaderRoundTrip(h, data + rest);
    MagicTextNext(b);
  }

  /** Headers are read from the bytes in memory, which begin the bytes that remain. */
  lemma DecodeFromPrefix(b: seq<byte>, rest: seq<byte>)
    requires RECORD_SIZE <= |b| && b <= rest
    ensures DecodeRecordHeader(b) == DecodeRecordHeader(rest)
    ensures HEADER_SIZE <= |b| ==> HeaderVersion(b) == HeaderVersion(rest)
  {
    assert b[0..2] == rest[0..2] && b[2..4] == rest[2..4] && b[4..6] == rest[4..6] && b[6..8] == rest[6..8];
    if HEADER_SIZE <= |b| {
      assert b[..21] == rest[..21] && b[22..HEADER_SIZE] == rest[22..HEADER_SIZE];
    }
  }
}

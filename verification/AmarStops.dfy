/** How a read ends, by the bytes that follow the last good record: padding, records that cannot be,
    headers of other versions. */
module AmarStops {
  import opened AmarFormat
  import opened Text
  import opened AmarSemantics
  import opened AmarMachine
  import opened AmarRefinement
  import opened AmarReading
  import opened AmarTruncation
  import opened AmarConfusion

  function Zeros(n: nat): (b: seq<byte>)
    ensures |b| == n && forall i | 0 <= i < n :: b[i] == 0
  {
    seq(n, _ => 0)
  }

  /** The archive's items, of which the first is a header. */
  predicate Archive(items: seq<Item>) {
    items != [] && items[0] == Header && AllWellFormed(items)
  }

  /** A filename record of the file is always followed by its end of file. */
  predicate LeftClosed(items: seq<Item>, f: u16) {
    forall k | 0 <= k < |items| && items[k].Rec? && items[k].filenum == f && items[k].attrid == ATTR_FILENAME :: EndsAfter(items, f, k)
  }

  predicate EndsAfter(items: seq<Item>, f: u16, k: int) {
    exists j | k < j < |items| && j >= 0 :: items[j].Rec? && items[j].filenum == f && items[j].attrid == ATTR_EOF
  }

  // ---------- the items before, and the stop ----------

  lemma ArchiveStarts(items: seq<Item>, tail: seq<byte>)
    requires Archive(items)
    ensures Begins(Encode(items) + tail)
  {
    var b := Encode(items) + tail;
    assert b[0] == HEADER_BYTES[0] == 65 && b[1] == HEADER_BYTES[1] == 77;
    MagicStart(b);
  }

  /** Bytes that stop the parser stop a read behind the items before them. */
  lemma StopsThere(hs: seq<Handling>, ignores: Ignores, items: seq<Item>, tail: seq<byte>, stop: Stop, cuts: Cuts)
    requires Terminated(hs) && Archive(items) && ParseOne(tail) == Halt(stop)
    ensures ReadBytes(hs, ignores, Encode(items) + tail, cuts) == ReadItems(hs, ignores, IDLE, Parsed(items, stop), cuts)
  {
    hide ReadItems, Encode, ParseOne, HandlingOf;
    ArchiveStarts(items, tail);
    ParseEncodeThen(items, tail);
    assert Parse(tail) == Parsed([], stop);
    assert items + [] == items;
  }

  /** Of two stops, neither inside data: the callbacks and results differ only in what the stops make of them. */
  lemma {:induction false} StopsAlike(hs: seq<Handling>, ignores: Ignores, m: Machine, items: seq<Item>, stop: Stop, cuts: Cuts)
    requires Terminated(hs) && !stop.Partial?
    ensures var x := ReadItems(hs, ignores, m, Parsed(items, stop), cuts); var y := ReadItems(hs, ignores, m, Parsed(items, Eof), cuts);
      if y.result.Dangling? then x == y else y.result == Success && x.result == if IsError(stop) then Error(stop) else Success
    decreases |items|
  {
    hide Turn, Frees, Stopping, AllFinished, HandlingOf;
    if items != [] {
      StopsAlike(hs, ignores, Turn(hs, ignores, m, items[0], Cut(cuts)), items[1..], stop, LaterCuts(cuts));
    }
  }

  // ---------- padding ----------

  lemma {:induction false} ClosedThen(c: Caller, t: Track, items: seq<Item>, f: u16)
    requires LeftClosed(items, f) && (f in t.open ==> EndsAfter(items, f, -1)) && KnownAttrids(items)
    ensures f !in TrackAll(c, t, items).open
    decreases |items|
  {
    if items != [] {
      var item, rest := items[0], items[1..];
      forall k | 0 <= k < |rest| && rest[k].Rec? && rest[k].filenum == f && rest[k].attrid == ATTR_FILENAME
        ensures EndsAfter(rest, f, k)
      {
        LaterEnd(items, f, k + 1);
      }
      if f in TrackItem(c, t, item).open {
        OpenNow(c, t, item, f);
        LaterEnd(items, f, if f in t.open then -1 else 0);
      }
      hide TrackItem, EndsAfter;
      ClosedThen(c, TrackItem(c, t, item), rest, f);
    }
  }

  /** An end of file that does not come first comes later. */
  lemma LaterEnd(items: seq<Item>, f: u16, k: int)
    requires items != [] && k >= -1 && EndsAfter(items, f, k)
    requires k == -1 ==> !(items[0].Rec? && items[0].filenum == f && items[0].attrid == ATTR_EOF)
    ensures EndsAfter(items[1..], f, if k == -1 then -1 else k - 1)
  {
    var j :| k < j < |items| && j >= 0 && items[j].Rec? && items[j].filenum == f && items[j].attrid == ATTR_EOF;
    assert items[1..][j - 1] == items[j];
  }

  lemma OpenNow(c: Caller, t: Track, item: Item, f: u16)
    requires f in TrackItem(c, t, item).open
    ensures f in t.open || (item.Rec? && item.filenum == f && item.attrid == ATTR_FILENAME)
    ensures !(item.Rec? && item.filenum == f && item.attrid == ATTR_EOF)
  {}

  /** Padding of a file that is not open ends a read as the end of the input does. */
  lemma {:induction false} PaddingIsEnd(hs: seq<Handling>, ignores: Ignores, c: Caller, m: Machine, t: Track, items: seq<Item>, f: u16, cuts: Cuts)
    requires Terminated(hs) && Follows(hs, c, m, t) && Serves(c, hs, ignores) && KnownAttrids(items)
    requires f !in TrackAll(c, t, items).open
    ensures ReadItems(hs, ignores, m, Parsed(items, Padding(f)), cuts) == ReadItems(hs, ignores, m, Parsed(items, Eof), cuts)
    decreases |items|
  {
    hide HandlingOf, Turn, Follows, Serves, Mistakes, AllFinished, TrackItem;
    if items == [] {
      NotOpen(hs, c, m, t, f);
    } else {
      var item := items[0];
      FirstKnown(items);
      if item.Rec? { MistakesFollow(hs, c, m, t, item); }
      if !Frees(m, item) {
        TurnFollows(hs, ignores, c, m, t, item, Cut(cuts));
        PaddingIsEnd(hs, ignores, c, Turn(hs, ignores, m, item, Cut(cuts)), TrackItem(c, t, item), items[1..], f, LaterCuts(cuts));
      }
    }
  }

  lemma NotOpen(hs: seq<Handling>, c: Caller, m: Machine, t: Track, f: u16)
    requires Terminated(hs) && Follows(hs, c, m, t) && f !in t.open
    ensures KnownFinished(m, f, true) == m
  {}

  lemma ArchiveAttrids(items: seq<Item>)
    requires AllWellFormed(items)
    ensures KnownAttrids(items)
  {}

  lemma StartsFollowing(hs: seq<Handling>, c: Caller)
    requires Terminated(hs)
    ensures Follows(hs, c, IDLE, UNTRACKED)
  {}

  lemma FrontParses(h: RecordHeader, tail: seq<byte>)
    requires h.size < EOA_BIT
    ensures var b := EncodeRecordHeader(h) + tail; DecodeRecordHeader(b) == h && b[RECORD_SIZE..] == tail
  {
    RecordHeaderRoundTrip(h, tail);
  }

  /** The bytes of a filename record with no filename in it. */
  function NamelessRecord(f: u16, eoa: bool): seq<byte> {
    EncodeRecordHeader(RecordHeader(f, 0, 0, eoa))
  }

  /** A filename record without a filename ends the read: as the end of the input would, if there are
      fewer than 504 bytes more or the next 504 are zero, and with an error otherwise. */
  lemma NamelessEnds(hs: seq<Handling>, ignores: Ignores, c: Caller, items: seq<Item>, f: u16, eoa: bool, tail: seq<byte>, cuts: Cuts)
    requires Terminated(hs) && Serves(c, hs, ignores) && Archive(items) && f != 0x414d
    ensures var x := ReadBytes(hs, ignores, Encode(items) + (NamelessRecord(f, eoa) + tail), cuts);
      var y := ReadBytes(hs, ignores, Encode(items), cuts);
      if |tail| < 504 || forall i | 0 <= i < 504 :: tail[i] == 0
      then x.result == y.result && (LeftClosed(items, f) ==> x.events == y.events)
      else x.result == if y.result.Dangling? then y.result else Error(EmptyName(f))
  {
    var stop := if |tail| < 504 || forall i | 0 <= i < 504 :: tail[i] == 0 then Padding(f) else EmptyName(f);
    var b := NamelessRecord(f, eoa) + tail;
    FrontParses(RecordHeader(f, 0, 0, eoa), tail);
    assert ParseOne(b) == Halt(stop);
    assert Encode(items) + [] == Encode(items) && ParseOne([]) == Halt(Eof);
    hide ReadBytes, ReadItems, HandlingOf, ParseOne, Encode, NamelessRecord, LeftClosed, Follows, TrackAll, EncodeRecordHeader, DecodeRecordHeader;
    StopsThere(hs, ignores, items, b, stop, cuts);
    StopsThere(hs, ignores, items, [], Eof, cuts);
    StopsAlike(hs, ignores, IDLE, items, stop, cuts);
    if stop.Padding? && LeftClosed(items, f) {
      ArchiveAttrids(items);
      StartsFollowing(hs, c);
      ClosedThen(c, UNTRACKED, items, f);
      PaddingIsEnd(hs, ignores, c, IDLE, UNTRACKED, items, f, cuts);
    }
  }

  lemma ZeroRecord()
    ensures NamelessRecord(0, false) == Zeros(8)
  {}

  /** An archive that is followed by any number of zero bytes is read like the archive alone, if it does
      not leave a file of number 0 open. */
  lemma PaddedArchive(hs: seq<Handling>, ignores: Ignores, c: Caller, items: seq<Item>, n: nat, cuts: Cuts)
    requires Terminated(hs) && Serves(c, hs, ignores) && Archive(items)
    ensures var x := ReadBytes(hs, ignores, Encode(items) + Zeros(n), cuts); var y := ReadBytes(hs, ignores, Encode(items), cuts);
      x.result == y.result && (LeftClosed(items, 0) ==> x == y)
  {
    if n < 8 {
      assert ParseOne(Zeros(n)) == Halt(Eof);
      assert Encode(items) + [] == Encode(items) && ParseOne([]) == Halt(Eof);
      hide ReadBytes, ReadItems, HandlingOf, ParseOne, Encode;
      StopsThere(hs, ignores, items, Zeros(n), Eof, cuts);
      StopsThere(hs, ignores, items, [], Eof, cuts);
    } else {
      ZeroRecord();
      assert Zeros(n) == Zeros(8) + Zeros(n - 8);
      hide ReadBytes, HandlingOf, Encode;
      NamelessEnds(hs, ignores, c, items, 0, false, Zeros(n - 8), cuts);
    }
  }

  /** Eight zero bytes, followed by 504 bytes that are not all zero, are no padding. */
  lemma NotPadding(hs: seq<Handling>, ignores: Ignores, c: Caller, items: seq<Item>, tail: seq<byte>, cuts: Cuts)
    requires Terminated(hs) && Serves(c, hs, ignores) && Archive(items)
    requires |tail| >= 504 && exists i | 0 <= i < 504 :: tail[i] != 0
    ensures var y := ReadBytes(hs, ignores, Encode(items), cuts);
      ReadBytes(hs, ignores, Encode(items) + (Zeros(8) + tail), cuts).result ==
        if y.result.Dangling? then y.result else Error(EmptyName(0))
  {
    ZeroRecord();
    hide ReadBytes, HandlingOf, Encode;
    NamelessEnds(hs, ignores, c, items, 0, false, tail, cuts);
  }

  /** The last call was the end of the file, which is reported truncated. */
  predicate JustFinished(events: seq<Event>, f: u16) {
    events != [] && events[|events| - 1] == FinishCall(f, true)
  }

  lemma FinishedNow(m: Machine, f: u16)
    requires IsOpen(m, f) && Accepts(m, f)
    ensures JustFinished(KnownFinished(m, f, true).events, f)
  {
    var x := m.files[FindOpen(m.files, f)];
    assert x.filenum == f;
    hide EndCalls;
  }

  lemma {:induction false} StopFinishes(hs: seq<Handling>, ignores: Ignores, c: Caller, m: Machine, t: Track, items: seq<Item>, stop: Stop, cuts: Cuts)
    requires Terminated(hs) && Follows(hs, c, m, t) && Serves(c, hs, ignores) && KnownAttrids(items)
    requires (stop.EmptyName? || stop.NameWithoutEoa?) && Reads(TrackAll(c, t, items), stop.filenum)
    ensures var x := ReadItems(hs, ignores, m, Parsed(items, stop), cuts); x.result.Dangling? || JustFinished(x.events, stop.filenum)
    decreases |items|
  {
    hide HandlingOf, Turn, Follows, Serves, Mistakes, AllFinished, TrackItem, KnownFinished, JustFinished;
    if items == [] {
      StillOpen(hs, c, m, t, stop.filenum);
      FinishedNow(m, stop.filenum);
    } else {
      var item := items[0];
      FirstKnown(items);
      if item.Rec? { MistakesFollow(hs, c, m, t, item); }
      if !Frees(m, item) {
        TurnFollows(hs, ignores, c, m, t, item, Cut(cuts));
        StopFinishes(hs, ignores, c, Turn(hs, ignores, m, item, Cut(cuts)), TrackItem(c, t, item), items[1..], stop, LaterCuts(cuts));
      }
    }
  }

  lemma StillOpen(hs: seq<Handling>, c: Caller, m: Machine, t: Track, f: u16)
    requires Terminated(hs) && Follows(hs, c, m, t) && Reads(t, f)
    ensures IsOpen(m, f) && Accepts(m, f)
  {}

  /** An empty filename that is an error comes after its file, if that is open and not ignored, has been
      finished as truncated: that is the last call of the read. */
  lemma EmptyNameFinishes(hs: seq<Handling>, ignores: Ignores, c: Caller, items: seq<Item>, f: u16, eoa: bool, tail: seq<byte>, cuts: Cuts)
    requires Terminated(hs) && Serves(c, hs, ignores) && Archive(items) && f != 0x414d
    requires |tail| >= 504 && exists i | 0 <= i < 504 :: tail[i] != 0
    requires Reads(TrackAll(c, UNTRACKED, items), f)
    ensures var x := ReadBytes(hs, ignores, Encode(items) + (NamelessRecord(f, eoa) + tail), cuts);
      x.result.Dangling? || JustFinished(x.events, f)
  {
    var b := NamelessRecord(f, eoa) + tail;
    FrontParses(RecordHeader(f, 0, 0, eoa), tail);
    assert ParseOne(b) == Halt(EmptyName(f));
    hide ReadBytes, ReadItems, HandlingOf, ParseOne, Encode, NamelessRecord, Follows, TrackAll, EncodeRecordHeader, DecodeRecordHeader;
    StopsThere(hs, ignores, items, b, EmptyName(f), cuts);
    ArchiveAttrids(items);
    StartsFollowing(hs, c);
    StopFinishes(hs, ignores, c, IDLE, UNTRACKED, items, EmptyName(f), cuts);
  }

  // ---------- records that cannot be ----------

  /** What is wrong with a record that is followed by n bytes, if anything is. */
  function Wrong(h: RecordHeader, n: nat): Option<Stop> {
    if h.size > 4 * 1024 * 1024 then Some(RecordTooLarge)
    else if h.attrid == 1 then if h.size > 0 then Some(EofWithData) else None
    else if h.attrid == 0 then if 0 < h.size <= n && !h.eoa then Some(NameWithoutEoa(h.filenum)) else None
    else if h.attrid < 16 then Some(UnknownAttribute(h.filenum, h.attrid))
    else None
  }

  /** After any items: a record of more than 4 MiB, an end of file with data, a filename that is not the
      last record of its attribute, or an attribute of a reserved number ends the read with the error
      that says so; no other record is an error, with or without a filename (see NamelessEnds). */
  lemma WrongRecordEnds(hs: seq<Handling>, ignores: Ignores, items: seq<Item>, h: RecordHeader, tail: seq<byte>, cuts: Cuts)
    requires Terminated(hs) && Archive(items) && h.filenum != 0x414d && h.size < EOA_BIT
    ensures var p := ParseOne(EncodeRecordHeader(h) + tail);
      Wrong(h, |tail|).None? ==> p.Got? || !IsError(p.stop) || (h.attrid == 0 && h.size == 0)
    ensures var x := ReadBytes(hs, ignores, Encode(items) + (EncodeRecordHeader(h) + tail), cuts);
      var y := ReadBytes(hs, ignores, Encode(items), cuts);
      Wrong(h, |tail|).Some? ==> x.result == if y.result.Dangling? then y.result else Error(Wrong(h, |tail|).value)
  {
    var b := EncodeRecordHeader(h) + tail;
    FrontParses(h, tail);
    assert Encode(items) + [] == Encode(items) && ParseOne([]) == Halt(Eof);
    assert |b| == RECORD_SIZE + |tail|;
    if Wrong(h, |tail|).Some? {
      var stop := Wrong(h, |tail|).value;
      assert ParseOne(b) == Halt(stop);
      hide ReadBytes, ReadItems, HandlingOf, ParseOne, Encode, EncodeRecordHeader, DecodeRecordHeader;
      StopsThere(hs, ignores, items, b, stop, cuts);
      StopsThere(hs, ignores, items, [], Eof, cuts);
      StopsAlike(hs, ignores, IDLE, items, stop, cuts);
    }
  }

  // ---------- headers ----------

  /** A header of another version, of at most six digits. */
  function HeaderOf(version: nat): seq<byte>
    requires |Digits(version)| <= 6
  {
    MAGIC_TEXT + [32] + Digits(version) + Zeros(6 - |Digits(version)|)
  }

  lemma VersionRead(version: nat, tail: seq<byte>)
    requires |Digits(version)| <= 6
    ensures HeaderVersion(HeaderOf(version) + tail) == Some(version)
    ensures DecodeRecordHeader(HeaderOf(version) + tail).filenum == MAGIC_FILENUM
  {
    var b := HeaderOf(version) + tail;
    assert b[..21] == MAGIC_TEXT && b[21] == 32 && b[22] == Digits(version)[0];
    assert b[22..HEADER_SIZE] == Digits(version) + Zeros(6 - |Digits(version)|);
    DecimalDigits(version, Zeros(6 - |Digits(version)|));
    MagicStart(b);
  }

  /** After any items, a header of a later version is an error that names it; one of version 0 or 1 is
      read over. */
  lemma OtherVersions(hs: seq<Handling>, ignores: Ignores, items: seq<Item>, version: nat, tail: seq<byte>, cuts: Cuts)
    requires Terminated(hs) && Archive(items) && |Digits(version)| <= 6
    ensures var x := ReadBytes(hs, ignores, Encode(items) + (HeaderOf(version) + tail), cuts);
      var y := ReadBytes(hs, ignores, Encode(items), cuts);
      if version > 1 then x.result == if y.result.Dangling? then y.result else Error(UnsupportedVersion(version))
      else x == ReadBytes(hs, ignores, Encode(items) + (HEADER_BYTES + tail), cuts)
  {
    var b := HeaderOf(version) + tail;
    VersionRead(version, tail);
    assert Encode(items) + [] == Encode(items) && ParseOne([]) == Halt(Eof);
    if version > 1 {
      assert ParseOne(b) == Halt(UnsupportedVersion(version));
      hide ReadBytes, ReadItems, HandlingOf, ParseOne, Encode, HeaderOf, HeaderVersion;
      StopsThere(hs, ignores, items, b, UnsupportedVersion(version), cuts);
      StopsThere(hs, ignores, items, [], Eof, cuts);
      StopsAlike(hs, ignores, IDLE, items, UnsupportedVersion(version), cuts);
    } else {
      ParseEncodedHeader(tail);
      assert ParseOne(b) == Got(Header, HEADER_SIZE);
      assert b[HEADER_SIZE..] == tail && (HEADER_BYTES + tail)[HEADER_SIZE..] == tail;
      hide ReadItems, HandlingOf, ParseOne, Encode, HeaderOf, HeaderVersion, HEADER_BYTES;
      assert Parse(b) == Parse(HEADER_BYTES + tail);
      ArchiveStarts(items, b);
      ArchiveStarts(items, HEADER_BYTES + tail);
      ParseEncodeThen(items, b);
      ParseEncodeThen(items, HEADER_BYTES + tail);
    }
  }

  /** An input is refused at once exactly if its first two bytes are there, with six more, and are not
      those of a header; nothing is called then. */
  lemma NoArchive(hs: seq<Handling>, ignores: Ignores, b: seq<byte>, cuts: Cuts)
    requires Terminated(hs)
    ensures ReadBytes(hs, ignores, b, cuts).result == NotAnArchive <==> |b| >= 8 && !(b[0] == 65 && b[1] == 77)
    ensures ReadBytes(hs, ignores, b, cuts).result == NotAnArchive ==> ReadBytes(hs, ignores, b, cuts).events == []
  {
    if |b| >= 8 {
      assert b[0..2] == [b[0], b[1]];
      hide Num16;
      NumberIs(b[0], b[1]);
    }
    if Begins(b) {
      hide ReadItems, Parse, HandlingOf;
      ItemsRefuseNothing(hs, ignores, IDLE, Parse(b), cuts);
    }
  }

  lemma NumberIs(hi: byte, lo: byte)
    ensures Num16([hi, lo]) == 0x414d <==> hi == 65 && lo == 77
  {}

  lemma {:induction false} ItemsRefuseNothing(hs: seq<Handling>, ignores: Ignores, m: Machine, p: Parsed, cuts: Cuts)
    requires Terminated(hs)
    ensures ReadItems(hs, ignores, m, p, cuts).result != NotAnArchive
    decreases |p.items|
  {
    hide Turn, Frees, Stopping, AllFinished, HandlingOf, Wanted;
    if p.items != [] {
      ItemsRefuseNothing(hs, ignores, Turn(hs, ignores, m, p.items[0], Cut(cuts)), Parsed(p.items[1..], p.stop), LaterCuts(cuts));
    }
  }
}

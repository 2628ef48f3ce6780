/** Whole archives, as bytes: written, and read back. */
module AmarWhole {
  import opened AmarFormat
  import opened Text
  import opened AmarSemantics
  import opened AmarWriter
  import opened AmarRoundTrip
  import opened AmarArchive
  import opened AmarMachine
  import opened AmarDelivery
  import opened AmarRefinement
  import opened AmarReading
  import opened AmarTruncation
  import opened AmarConfusion
  import opened AmarMisreading
  import opened AmarShapes

  /** What a written archive says, once all files are closed. */
  lemma ArchiveReport(c: Caller, ops: seq<Op>)
    requires LegalRun(NO_FILES, ops) && FreshRun(NO_FILES, ops) && WsAfter(NO_FILES, ops).files == map[]
    ensures AllWellFormed(ArchiveItems(ops)) && ArchiveItems(ops) != [] && ArchiveItems(ops)[0] == Header
    ensures var st := Fold(c, INITIAL, ArchiveItems(ops));
      && ReadAll(c, Encode(ArchiveItems(ops))) == Final(st, Ended(Eof))
      && Report(c, Encode(ArchiveItems(ops))) == st.out
  {
    ArchiveBegins(ops);
    FullFinal(c, ArchiveItems(ops));
    NoFilesLeft(c, ops);
    var st := Fold(c, INITIAL, ArchiveItems(ops));
    assert st.out + [] == st.out;
  }

  /** Round trip over bytes.  For every run of calls with fresh file numbers that closes all its files,
      and in which no record is taken for another file's attribute: whatever the minimum sizes and
      however each record is cut, the joined callbacks are exactly what was asked for, in order, if
      and only if no end of a received attribute was lost. */
  lemma ArchiveRoundTrip(c: Caller, hs: seq<Handling>, ignores: Ignores, ops: seq<Op>, cuts: Cuts)
    requires LegalRun(NO_FILES, ops) && FreshRun(NO_FILES, ops) && WsAfter(NO_FILES, ops).files == map[]
    requires Terminated(hs) && Serves(c, hs, ignores) && !Clashes(c, INITIAL, NoCache, ArchiveItems(ops))
    ensures AllFit(ArchiveItems(ops))
    ensures var x := ReadBytes(hs, ignores, Encode(ArchiveItems(ops)), cuts);
      && x.result == Success
      && (Join(x.events).out == AskedAfter(c, NO_FILES, NOTHING, ops).obs <==> KeepsEnds(c, NO_FILES, NOTHING, ops))
  {
    ArchiveReport(c, ops);
    FullFinal(c, ArchiveItems(ops));
    ReadsAsAsked(c, ops);
    hide Encode, Parse, Fold, Clashes, JoinOn, ReadItems, LegalRun;
    var k := ReadReports(hs, ignores, c, Encode(ArchiveItems(ops)), cuts);
  }

  // ---------- the round trip where records are mistaken ----------

  /** The attributes told complete, in order. */
  function Complete(obs: seq<Obs>): seq<Obs> {
    if obs == [] then []
    else (if obs[0].Attr? && !obs[0].truncated then [obs[0]] else []) + Complete(obs[1..])
  }

  lemma {:induction false} CompleteCounts(obs: seq<Obs>, o: Obs)
    ensures |Complete(obs)| == Ends(obs)
    ensures multiset(Complete(obs))[o] ==
      if o.Attr? && !o.truncated then multiset(ObsOf(obs, o.filenum, o.attrid))[o] else 0
    decreases |obs|
  {
    if obs != [] {
      CompleteCounts(obs[1..], o);
    }
  }

  /** Whoever is told the same of every file and attribute is told of as many complete attributes. */
  lemma SameToldEnds(x: seq<Obs>, y: seq<Obs>)
    requires SameTold(x, y)
    ensures Ends(x) == Ends(y)
  {
    forall o ensures multiset(Complete(x))[o] == multiset(Complete(y))[o] {
      CompleteCounts(x, o);
      CompleteCounts(y, o);
      if o.Attr? { assert ObsOf(x, o.filenum, o.attrid) == ObsOf(y, o.filenum, o.attrid); }
    }
    assert multiset(Complete(x)) == multiset(Complete(y));
    CompleteCounts(x, Finished(0, false));
    CompleteCounts(y, Finished(0, false));
    assert |multiset(Complete(x))| == |Complete(x)| && |multiset(Complete(y))| == |Complete(y)|;
  }

  lemma {:induction false} CloseFoundEnds(c: Caller, st: ReaderState, f: u16, truncated: bool)
    ensures Ends(CloseFound(c, st, f, truncated).out) == Ends(st.out)
  {
    var i := FindFile(st.files, f);
    if i < |st.files| {
      var x := st.files[i];
      var last := if x.ignore then [] else [Finished(f, truncated)];
      assert Ends(last) == 0;
      hide Ends, CloseAttrs;
      CloseAttrsEnds(c, f, x.attrs);
      EndsAppend(CloseAttrs(c, f, x.attrs), last);
      EndsAppend(st.out, AmarSemantics.CloseFile(c, x, truncated));
    }
  }

  lemma {:induction false} CloseAllEnds(c: Caller, files: seq<FileState>)
    ensures Ends(CloseAll(c, files)) == 0
    decreases |files|
  {
    if files != [] {
      var last := if files[0].ignore then [] else [Finished(files[0].filenum, true)];
      assert Ends(last) == 0;
      hide Ends, CloseAttrs;
      CloseAttrsEnds(c, files[0].filenum, files[0].attrs);
      EndsAppend(CloseAttrs(c, files[0].filenum, files[0].attrs), last);
      CloseAllEnds(c, files[1..]);
      EndsAppend(AmarSemantics.CloseFile(c, files[0], true), CloseAll(c, files[1..]));
    }
  }

  lemma {:induction false} DataEndsOnce(c: Caller, st: ReaderState, f: u16, a: u16, eoa: bool, data: seq<byte>)
    requires Receives(st, f)
    ensures Ends(AddData(c, st, f, a, eoa, data).out) == Ends(st.out) + if eoa && c.wants(a) then 1 else 0
  {
    var all := AllData(c, st.files[FindFile(st.files, f)].attrs, a, data);
    EndsAppend(st.out, if c.wants(a) then [Attr(f, a, all, false)] else []);
  }

  /** Each record makes the reader tell as many complete attributes as the archive says. */
  lemma {:induction false} StepEndsSame(c: Caller, t: Track, d: Delivery, st: ReaderState, item: Item)
    requires Alongside(t, d) && OpenIn(t, st) && !(Confuses(t, item) && item.eoa)
    ensures Ends(Deliver(c, d, item).st.out) - Ends(d.st.out) == Ends(Step(c, st, item).out) - Ends(st.out)
  {
    ConfusesIs(t, d.st, item);
    ConfusesIs(t, st, item);
    hide Ends, AddData, CloseFound, HasState, Known, Receives, OpenIn, Neat;
    match item
    case Header =>
    case Rec(f, a, eoa, data) =>
      if a == ATTR_EOF || a == ATTR_FILENAME {
        CloseFoundEnds(c, d.st, f, a == ATTR_FILENAME);
        CloseFoundEnds(c, st, f, a == ATTR_FILENAME);
        EndsAppend(CloseFound(c, d.st, f, true).out, [Started(f, data)]);
        EndsAppend(CloseFound(c, st, f, true).out, [Started(f, data)]);
      } else if Receives(st, f) {
        DataEndsOnce(c, st, f, a, eoa, data);
        DataEndsOnce(c, d.st, f, a, eoa, Stray(d, f, a) + data);
        DataEndsOnce(c, d.st, f, a, false, data);
      } else {
        NotReceived(c, st, f, a, eoa, data);
      }
  }

  lemma {:induction false} OpenStep(c: Caller, t: Track, st: ReaderState, item: Item)
    requires OpenIn(t, st) && Neat(st) && KnownAttrids([item]) && !(Confuses(t, item) && item.eoa)
    ensures OpenIn(TrackItem(c, t, item), Step(c, st, item)) && Neat(Step(c, st, item))
  {
    assert [item][0] == item;
    NeatStep(c, st, item);
    NeatFiles(st);
    hide Neat, CloseFound, AddData, Confuses, CloseTrack, NoTwins, Start;
    match item
    case Header =>
    case Rec(f, a, eoa, data) =>
      if a == ATTR_EOF {
        CloseOpen(c, t, st, f, false);
      } else if a == ATTR_FILENAME {
        CloseOpen(c, t, st, f, true);
        ClosedNeatly(c, st, f, true);
        NeatFiles(CloseFound(c, st, f, true));
        StartOpen(c, CloseTrack(t, f), CloseFound(c, st, f, true), f, data);
      } else if Reads(t, f) {
        TrackOpen(c, t, item);
        SameReads(t, TrackItem(c, t, item), st);
        DataOpen(c, TrackItem(c, t, item), st, f, a, eoa, data);
      } else {
        ConfusesIs(t, st, item);
        NotReceived(c, st, f, a, eoa, data);
      }
  }

  lemma {:induction false} EndsSame(c: Caller, t: Track, d: Delivery, st: ReaderState, items: seq<Item>)
    requires Alongside(t, d) && OpenIn(t, st) && Neat(st) && KnownAttrids(items) && !FreesIn(c, t, items)
    ensures Ends(DeliverAll(c, d, items).st.out) - Ends(d.st.out) == Ends(Fold(c, st, items).out) - Ends(st.out)
    decreases |items|
  {
    hide Ends, Deliver, Step, TrackItem, OpenIn, Neat, Confuses, Alongside;
    if items != [] {
      FirstKnown(items);
      StepEndsSame(c, t, d, st, items[0]);
      OpenStep(c, t, st, items[0]);
      DeliverAlongside(c, t, d, items[0]);
      EndsSame(c, TrackItem(c, t, items[0]), Deliver(c, d, items[0]), Step(c, st, items[0]), items[1..]);
    }
  }

  predicate NoneTruncated(obs: seq<Obs>) {
    forall i | 0 <= i < |obs| && obs[i].Attr? :: !obs[i].truncated
  }

  lemma {:induction false} GivesWhole(c: Caller, asked: Asked, f: u16, order: seq<u16>)
    requires NoneTruncated(asked.obs) && f in asked.files && forall k | 0 <= k < |order| :: order[k] in asked.files[f].attrs
    ensures NoneTruncated(GiveEnds(c, asked, f, order).obs)
    decreases |order|
  {
    if order != [] {
      GiveShape(c, asked, f, order[0], [], true);
      GivesWhole(c, Give(c, asked, f, order[0], [], true), f, order[1..]);
    }
  }

  lemma {:induction false} AsksWhole(c: Caller, ws: WriterState, asked: Asked, op: Op)
    requires Matches(ws, asked) && Legal(ws, op) && NoneTruncated(asked.obs)
    ensures NoneTruncated(Ask(c, ws, asked, op).obs)
  {
    if op.CloseFile? {
      GivesWhole(c, asked, op.filenum, op.order);
      hide GiveEnds;
    }
  }

  /** Nobody asks for a truncated attribute. */
  lemma {:induction false} AskedWhole(c: Caller, ws: WriterState, asked: Asked, ops: seq<Op>)
    requires LegalRun(ws, ops) && Matches(ws, asked) && NoneTruncated(asked.obs)
    ensures NoneTruncated(AskedAfter(c, ws, asked, ops).obs)
    decreases |ops|
  {
    hide Matches, Legal, Ask, After, NoneTruncated;
    if ops != [] {
      AsksWhole(c, ws, asked, ops[0]);
      AskMatches(c, ws, asked, ops[0]);
      AskedWhole(c, After(ws, ops[0]), Ask(c, ws, asked, ops[0]), ops[1..]);
    }
  }

  // ---------- stranded attributes show in the archive's account ----------

  /** Closing a file with an attribute stranded: the archive says that it is truncated. */
  lemma {:induction false} StrandedShows(c: Caller, t: Track, d: Delivery, st: ReaderState, f: u16, truncated: bool)
    requires Alike(c, t, d, st) && f in t.open && Stranded(c, t, f)
    ensures !NoneTruncated(CloseFound(c, st, f, truncated).out)
  {
    var x :| x in t.begun && x.0 == f && x !in t.own && c.wants(x.1);
    var a := x.1;
    assert x == (f, a);
    hide CloseFound, ObsOf, Stranded, Alike, Stray, HasState, HeldBy, Known, Receives;
    AlikeMeans(c, t, d, st, f, a);
    CloseObs(c, st, f, truncated, f, a);
    var o := Attr(f, a, HeldBy(st, f, a), true);
    assert o in ClosingObs(c, st, f, truncated, f, a);
    OfObserved(CloseFound(c, st, f, truncated).out, f, a, o);
  }

  lemma {:induction false} EndShows(c: Caller, t: Track, d: Delivery, st: ReaderState, f: u16)
    requires Alike(c, t, d, st) && f in t.open && Stranded(c, t, f)
    ensures !NoneTruncated(Told(c, st))
  {
    var x :| x in t.begun && x.0 == f && x !in t.own && c.wants(x.1);
    var a := x.1;
    assert x == (f, a);
    hide Told, ObsOf, Stranded, Alike, Stray, HasState, HeldBy, Known, Receives, Neat;
    AlikeMeans(c, t, d, st, f, a);
    AlikeNeat(c, t, d, st);
    ToldObs(c, st, f, a);
    var o := Attr(f, a, HeldBy(st, f, a), true);
    assert o in ClosingObs(c, st, f, true, f, a);
    OfObserved(Told(c, st), f, a, o);
  }

  lemma {:induction false} ShownForGood(c: Caller, st: ReaderState, item: Item, items: seq<Item>)
    requires item.Rec? && (item.attrid == ATTR_EOF || item.attrid == ATTR_FILENAME)
    requires !NoneTruncated(CloseFound(c, st, item.filenum, item.attrid == ATTR_FILENAME).out)
    ensures !NoneTruncated(Told(c, Fold(c, Step(c, st, item), items)))
  {
    var out := CloseFound(c, st, item.filenum, item.attrid == ATTR_FILENAME).out;
    assert out <= Step(c, st, item).out by { hide CloseFound; }
    FoldSays(c, Step(c, st, item), items);
    hide CloseFound, Step, Fold, CloseAll;
    var i :| 0 <= i < |out| && out[i].Attr? && out[i].truncated;
    assert Told(c, Fold(c, Step(c, st, item), items))[i] == out[i];
  }

  lemma {:induction false} StrandsShow(c: Caller, t: Track, d: Delivery, st: ReaderState, items: seq<Item>)
    requires Alike(c, t, d, st) && KnownAttrids(items) && !FreesIn(c, t, items) && StrandsIn(c, t, items)
    ensures !NoneTruncated(Told(c, Fold(c, st, items)))
    decreases |items|
  {
    hide Alike, Step, Deliver, TrackItem, Stranded, Confuses, Told, NoneTruncated, CloseFound;
    if items == [] {
      var f :| f in t.open && Stranded(c, t, f);
      EndShows(c, t, d, st, f);
    } else {
      var item := items[0];
      FirstKnown(items);
      if ClosesFile(t, item) && Stranded(c, t, item.filenum) {
        StrandedShows(c, t, d, st, item.filenum, item.attrid == ATTR_FILENAME);
        ShownForGood(c, st, item, items[1..]);
      } else {
        StepAlike(c, t, d, st, item);
        StrandsShow(c, TrackItem(c, t, item), Deliver(c, d, item), Step(c, st, item), items[1..]);
      }
    }
  }

  /** The same round trip where records are taken for other files' attributes, as long as none of them
      ends an attribute or has data that would be kept back: every file and attribute is told what was
      asked for it if and only if no end of a received attribute was lost. */
  lemma MistakenRoundTrip(c: Caller, hs: seq<Handling>, ignores: Ignores, ops: seq<Op>, cuts: Cuts)
    requires LegalRun(NO_FILES, ops) && FreshRun(NO_FILES, ops) && WsAfter(NO_FILES, ops).files == map[]
    requires Terminated(hs) && Serves(c, hs, ignores) && HarmlessIn(c, hs, UNTRACKED, ArchiveItems(ops))
    ensures AllFit(ArchiveItems(ops))
    ensures var x := ReadBytes(hs, ignores, Encode(ArchiveItems(ops)), cuts);
      && x.result == Success
      && (SameTold(Join(x.events).out, AskedAfter(c, NO_FILES, NOTHING, ops).obs) <==> KeepsEnds(c, NO_FILES, NOTHING, ops))
  {
    var items := ArchiveItems(ops);
    var st, d := Fold(c, INITIAL, items), DeliverAll(c, BEGIN, items);
    var asked := AskedAfter(c, NO_FILES, NOTHING, ops).obs;
    ArchiveReport(c, ops);
    FullFinal(c, items);
    ParsesProperly(Encode(items));
    hide HandlingOf, Alike, Alongside, Parse, Encode, ReadItems, DeliverAll, Fold, HarmlessIn, AllWellFormed, StrandsIn, FreesIn, SameTold,
      LegalRun, FreshRun, KeepsEnds, AskedAfter, NoneTruncated, Ends, OpenIn, Neat, ItemsOf;
    ArchiveDelivers(c, hs, ignores, items, cuts);
    HarmlessFreesNot(c, hs, UNTRACKED, items);
    BeginAlike(c);
    assert Matches(NO_FILES, NOTHING) && NoneTruncated(NOTHING.obs) by { NothingWhole(); }
    if KeepsEnds(c, NO_FILES, NOTHING, ops) {
      ReadsAsAsked(c, ops);
      AskedWhole(c, NO_FILES, NOTHING, ops);
      assert Told(c, st) == asked by { ToldIs(c, ops); }
      if StrandsIn(c, UNTRACKED, items) {
        StrandsShow(c, UNTRACKED, BEGIN, INITIAL, items);
      }
      RightExactly(c, hs, ignores, items, cuts);
    } else {
      FewerEnds(c, ops);
      if SameTold(Told(c, d.st), asked) { SameToldEnds(Told(c, d.st), asked); }
    }
  }

  lemma NothingWhole()
    ensures Matches(NO_FILES, NOTHING) && NoneTruncated(NOTHING.obs)
  {}

  lemma ToldIs(c: Caller, ops: seq<Op>)
    requires LegalRun(NO_FILES, ops) && FreshRun(NO_FILES, ops) && WsAfter(NO_FILES, ops).files == map[]
    ensures Told(c, Fold(c, INITIAL, ArchiveItems(ops))) == Fold(c, INITIAL, ArchiveItems(ops)).out
  {
    NoFilesLeft(c, ops);
    var st := Fold(c, INITIAL, ArchiveItems(ops));
    assert st.out + [] == st.out;
  }

  /** With an end lost, the reader tells of fewer complete attributes, also where it mistakes records. */
  lemma FewerEnds(c: Caller, ops: seq<Op>)
    requires LegalRun(NO_FILES, ops) && FreshRun(NO_FILES, ops) && !KeepsEnds(c, NO_FILES, NOTHING, ops)
    requires !FreesIn(c, UNTRACKED, ArchiveItems(ops)) && KnownAttrids(ArchiveItems(ops))
    ensures Ends(Told(c, DeliverAll(c, BEGIN, ArchiveItems(ops)).st)) < Ends(AskedAfter(c, NO_FILES, NOTHING, ops).obs)
  {
    var items := ArchiveItems(ops);
    var d := DeliverAll(c, BEGIN, items);
    BeginAlike(c);
    assert OpenIn(UNTRACKED, INITIAL) && Neat(INITIAL);
    FoldAppend(c, INITIAL, FIRST, ItemsOf(NO_FILES, ops));
    FoldOne(c, INITIAL, Header);
    hide Ends, DeliverAll, Fold, FreesIn, OpenIn, Neat, CloseAll, Alongside;
    RunEnds(c, NO_FILES, NOTHING, INITIAL, ops);
    EndsSame(c, UNTRACKED, BEGIN, INITIAL, items);
    CloseAllEnds(c, d.st.files);
    EndsAppend(d.st.out, CloseAll(c, d.st.files));
  }

  /** Reading a written archive frees an attribute that another file still lists if and only if a
      record that ends an attribute is taken for another file's. */
  lemma ArchiveFrees(c: Caller, hs: seq<Handling>, ignores: Ignores, ops: seq<Op>, cuts: Cuts)
    requires LegalRun(NO_FILES, ops) && FreshRun(NO_FILES, ops) && Terminated(hs) && Serves(c, hs, ignores)
    ensures AllFit(ArchiveItems(ops))
    ensures ReadBytes(hs, ignores, Encode(ArchiveItems(ops)), cuts).result.Dangling? <==> FreesIn(c, UNTRACKED, ArchiveItems(ops))
  {
    ArchiveBegins(ops);
    FullFinal(c, ArchiveItems(ops));
    hide Encode, Parse, ReadItems, HandlingOf, FreesIn, LegalRun, FreshRun, ItemsOf;
    FreedExactly(hs, ignores, c, Encode(ArchiveItems(ops)), cuts);
  }

  /** When files open at the same time do not share attribute numbers, no record is ever mistaken, and
      the archive is read right whatever its data, the minimum sizes, the buffers and the cuts. */
  lemma ApartIsRight(c: Caller, ops: seq<Op>)
    requires LegalRun(NO_FILES, ops) && FreshRun(NO_FILES, ops) && ApartRun(NO_FILES, ops)
    ensures !Clashes(c, INITIAL, NoCache, ArchiveItems(ops))
    ensures AllWellFormed(ArchiveItems(ops)) && AlwaysRight(c, ArchiveItems(ops))
  {
    ArchiveBegins(ops);
    ArchiveWellFormed(ops);
    ApartNoOverlap(c, ops);
    hide AlwaysRight, LegalRun, FreshRun, ApartRun, Clashes, NeverOverlaps, ItemsOf;
    NoOverlapNoClash(c, INITIAL, NoCache, ArchiveItems(ops));
    NoClashSafe(c, ArchiveItems(ops));
  }

  // ---------- the file number that looks like a header ----------

  /** A read ends as parsing stops, unless it misuses memory before. */
  lemma {:induction false} EndsAsParsed(hs: seq<Handling>, ignores: Ignores, m: Machine, p: Parsed, cuts: Cuts)
    requires Terminated(hs) && !p.stop.Partial?
    ensures var result := ReadItems(hs, ignores, m, p, cuts).result;
      result.Dangling? || result == if IsError(p.stop) then Error(p.stop) else Success
    decreases |p.items|
  {
    hide Turn, Frees, Stopping, AllFinished, HandlingOf;
    if p.items != [] {
      EndsAsParsed(hs, ignores, Turn(hs, ignores, m, p.items[0], Cut(cuts)), Parsed(p.items[1..], p.stop), LaterCuts(cuts));
    }
  }

  lemma MagicParse(name: seq<byte>, rest: seq<byte>)
    requires |name| <= MAX_RECORD_DATA_SIZE
    ensures var b := EncodeItem(Rec(MAGIC_FILENUM, ATTR_FILENAME, true, name)) + rest;
      Parse(b) == Parsed([], if HEADER_SIZE <= |b| then InvalidHeader else Eof)
  {
    var b := EncodeItem(Rec(MAGIC_FILENUM, ATTR_FILENAME, true, name)) + rest;
    if HEADER_SIZE <= |b| {
      MagicFilenumUnreadable(ATTR_FILENAME, true, name, rest);
    } else {
      var h := RecordHeader(MAGIC_FILENUM, ATTR_FILENAME, |name|, true);
      assert b == EncodeRecordHeader(h) + (name + rest);
      RecordHeaderRoundTrip(h, name + rest);
    }
  }

  lemma MagicBytes(front: seq<Item>, name: seq<byte>, rest: seq<Item>)
    requires AllWellFormed(front) && AllFit(rest) && |name| <= MAX_RECORD_DATA_SIZE
    ensures AllFit(front + [Rec(MAGIC_FILENUM, ATTR_FILENAME, true, name)] + rest)
    ensures var left := RECORD_SIZE + |name| + |Encode(rest)|;
      Parse(Encode(front + [Rec(MAGIC_FILENUM, ATTR_FILENAME, true, name)] + rest))
      == Parsed(front, if HEADER_SIZE <= left then InvalidHeader else Eof)
  {
    var magic := Rec(MAGIC_FILENUM, ATTR_FILENAME, true, name);
    var tail := [magic] + rest;
    assert front + [magic] + rest == front + tail;
    assert tail[1..] == rest && tail[0] == magic;
    assert Encode(tail) == EncodeItem(magic) + Encode(rest);
    hide Encode, EncodeItem, Parse;
    EncodeAppend(front, tail);
    MagicParse(name, Encode(rest));
    ParseEncodeThen(front, Encode(tail));
    assert front + [] == front;
  }

  /** A run that makes the 0x414d-th file: whatever else it does, and however the archive is read, the
      read (unless it misuses memory before) ends at that file's name: with an error if the bytes from
      there on are as many as a header's, and as if the archive ended there if they are fewer. */
  lemma MagicFileUnreadable(c: Caller, hs: seq<Handling>, ignores: Ignores, ops: seq<Op>, cuts: Cuts) returns (n: nat, left: nat)
    requires LegalRun(NO_FILES, ops) && Accepted(NO_FILES, ops) >= MAGIC_FILENUM && Terminated(hs)
    ensures n < |ops| && ops[n].NewFile? && LegalRun(NO_FILES, ops[..n]) && Accepted(NO_FILES, ops[..n]) == MAGIC_FILENUM - 1
    ensures AllFit(ArchiveItems(ops)) && left <= |Encode(ArchiveItems(ops))|
    ensures ReadAll(c, Encode(ArchiveItems(ops))) ==
      Final(Fold(c, INITIAL, ArchiveItems(ops[..n]) + Headers(ops[n].header)), Ended(if HEADER_SIZE <= left then InvalidHeader else Eof))
    ensures var result := ReadBytes(hs, ignores, Encode(ArchiveItems(ops)), cuts).result;
      result.Dangling? || result == if HEADER_SIZE <= left then Error(InvalidHeader) else Success
  {
    var rest;
    n, rest := MagicArchive(ops);
    hide *;
    var name, front := ops[n].name, ArchiveItems(ops[..n]) + Headers(ops[n].header);
    left := RECORD_SIZE + |name| + |Encode(rest)|;
    LongEnough(front, name, rest);
    MagicReads(c, hs, ignores, front, name, rest, cuts);
  }

  lemma MagicArchive(ops: seq<Op>) returns (n: nat, rest: seq<Item>)
    requires LegalRun(NO_FILES, ops) && Accepted(NO_FILES, ops) >= MAGIC_FILENUM
    ensures n < |ops| && ops[n].NewFile? && LegalRun(NO_FILES, ops[..n]) && Accepted(NO_FILES, ops[..n]) == MAGIC_FILENUM - 1
    ensures |ops[n].name| <= MAX_RECORD_DATA_SIZE && AllFit(rest)
    ensures var front := ArchiveItems(ops[..n]) + Headers(ops[n].header);
      && AllWellFormed(front) && front != [] && front[0] == Header
      && ArchiveItems(ops) == front + [Rec(MAGIC_FILENUM, ATTR_FILENAME, true, ops[n].name)] + rest
  {
    FreshNumbers(NO_FILES, ops);
    hide LegalRun, FreshRun, Accepted, ItemsOf, AllWellFormed, AllFit, Headers;
    n, rest := MagicCall(NO_FILES, ops);
    RunFits(NO_FILES, ops);
    ArchiveBegins(ops[..n]);
    FitParts(ops, n, rest);
    Regrouped(FIRST, ItemsOf(NO_FILES, ops[..n]), Headers(ops[n].header), [Rec(MAGIC_FILENUM, ATTR_FILENAME, true, ops[n].name)], rest);
  }

  lemma MagicReads(c: Caller, hs: seq<Handling>, ignores: Ignores, front: seq<Item>, name: seq<byte>, rest: seq<Item>, cuts: Cuts)
    requires AllWellFormed(front) && front != [] && front[0] == Header && AllFit(rest) && |name| <= MAX_RECORD_DATA_SIZE
    requires Terminated(hs)
    ensures var items := front + [Rec(MAGIC_FILENUM, ATTR_FILENAME, true, name)] + rest;
      AllFit(items) &&
      var left := RECORD_SIZE + |name| + |Encode(rest)|; var result := ReadBytes(hs, ignores, Encode(items), cuts).result;
      && ReadAll(c, Encode(items)) == Final(Fold(c, INITIAL, front), Ended(if HEADER_SIZE <= left then InvalidHeader else Eof))
      && (result.Dangling? || result == if HEADER_SIZE <= left then Error(InvalidHeader) else Success)
  {
    var left := RECORD_SIZE + |name| + |Encode(rest)|;
    hide Parse, Encode, ReadItems, Fold, WellFormed, Begins;
    LongEnough(front, name, rest);
    MagicBytes(front, name, rest);
    EndsAsParsed(hs, ignores, IDLE, Parsed(front, if HEADER_SIZE <= left then InvalidHeader else Eof), cuts);
  }

  lemma FitParts(ops: seq<Op>, n: nat, rest: seq<Item>)
    requires n < |ops| && ops[n].NewFile? && LegalRun(NO_FILES, ops) && LegalRun(NO_FILES, ops[..n])
    requires AllWellFormed(ArchiveItems(ops[..n])) && AllFit(ItemsOf(NO_FILES, ops))
    requires ItemsOf(NO_FILES, ops) ==
      ItemsOf(NO_FILES, ops[..n]) + Headers(ops[n].header) + [Rec(MAGIC_FILENUM, ATTR_FILENAME, true, ops[n].name)] + rest
    ensures AllWellFormed(ArchiveItems(ops[..n]) + Headers(ops[n].header)) && AllFit(rest)
  {
    var all := ItemsOf(NO_FILES, ops);
    var k := |all| - |rest|;
    hide ItemsOf, LegalRun, WellFormed, Fits;
    forall i | 0 <= i < |rest| ensures Fits(rest[i]) {
      assert rest[i] == all[k + i];
    }
    assert WellFormed(Header) by { HeaderFine(); }
  }

  lemma HeaderFine()
    ensures WellFormed(Header)
  {}

  /** The archive begins with a header and is as long as its parts. */
  lemma LongEnough(front: seq<Item>, name: seq<byte>, rest: seq<Item>)
    requires AllWellFormed(front) && front != [] && front[0] == Header && AllFit(rest) && |name| <= MAX_RECORD_DATA_SIZE
    ensures var items := front + [Rec(MAGIC_FILENUM, ATTR_FILENAME, true, name)] + rest;
      && AllFit(items) && RECORD_SIZE + |name| + |Encode(rest)| <= |Encode(items)| && Begins(Encode(items))
  {
    var magic := Rec(MAGIC_FILENUM, ATTR_FILENAME, true, name);
    var tail := [magic] + rest;
    assert front + [magic] + rest == front + tail && tail[1..] == rest;
    EncodeAppend(front, tail);
    var b := Encode(front + tail);
    assert b[0] == HEADER_BYTES[0] == 65 && b[1] == HEADER_BYTES[1] == 77;
    MagicStart(b);
  }
}

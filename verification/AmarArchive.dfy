/** What is written is well formed, and when attributes of different files are kept apart. */
module AmarArchive {
  import opened AmarFormat
  import opened Text
  import opened AmarSemantics
  import opened AmarWriter
  import opened AmarRoundTrip

  // ---------- what is written is well formed ----------

  predicate GoodNumbers(ws: WriterState) {
    MAGIC_FILENUM !in ws.files
  }

  lemma {:induction false} ChunksWellFormed(f: u16, a: u16, data: seq<byte>, eoa: bool)
    requires f != MAGIC_FILENUM && a >= ATTR_APP_START
    ensures AllWellFormed(Chunks(f, a, data, eoa)) && AllWellFormed(FdChunks(f, a, data, eoa))
    decreases |data|
  {
    if |data| >= MAX_RECORD_DATA_SIZE {
      ChunksWellFormed(f, a, data[MAX_RECORD_DATA_SIZE..], eoa);
    }
  }

  lemma {:induction false} EndRecordsWellFormed(f: u16, order: seq<u16>)
    requires f != MAGIC_FILENUM && forall k | 0 <= k < |order| :: order[k] >= ATTR_APP_START
    ensures AllWellFormed(EndRecords(f, order))
  {
    if order != [] {
      EndRecordsWellFormed(f, order[1..]);
    }
  }

  lemma RecordsWellFormed(ws: WriterState, op: Op)
    requires Legal(ws, op) && Fresh(ws, op) && AppAttrs(ws) && GoodNumbers(ws)
    ensures AllWellFormed(Records(ws, op)) && GoodNumbers(After(ws, op))
  {
    match op
    case AddBuffer(f, a, data, eoa) => ChunksWellFormed(f, a, data, eoa);
    case AddFd(f, a, data, eoa) => ChunksWellFormed(f, a, data, eoa);
    case CloseFile(f, order) => EndRecordsWellFormed(f, order);
    case _ =>
  }

  lemma {:induction false} RunWellFormed(ws: WriterState, ops: seq<Op>)
    requires LegalRun(ws, ops) && FreshRun(ws, ops) && AppAttrs(ws) && GoodNumbers(ws)
    ensures AllWellFormed(ItemsOf(ws, ops))
    decreases |ops|
  {
    hide Legal, Fresh, AppAttrs, GoodNumbers, Records, After, WellFormed;
    if ops != [] {
      RecordsWellFormed(ws, ops[0]);
      AppAttrsAfter(ws, ops[0]);
      RunWellFormed(After(ws, ops[0]), ops[1..]);
    }
  }

  // ---------- when attribute numbers of different files are kept apart ----------

  /** A new attribute's number is not used in any other open file. */
  predicate Apart(ws: WriterState, op: Op) {
    op.NewAttr? ==> forall g | g in ws.files && g != op.filenum :: op.attrid !in ws.files[g]
  }

  predicate ApartRun(ws: WriterState, ops: seq<Op>)
    requires LegalRun(ws, ops)
    decreases |ops|
  {
    ops != [] ==> Apart(ws, ops[0]) && ApartRun(After(ws, ops[0]), ops[1..])
  }

  predicate AllApart(ws: WriterState) {
    forall f, g, a | f in ws.files && g in ws.files && f != g && a in ws.files[f] :: a !in ws.files[g]
  }

  lemma AllApartAfter(ws: WriterState, op: Op)
    requires Legal(ws, op) && AllApart(ws) && Apart(ws, op)
    ensures AllApart(After(ws, op))
  {}

  /** The attributes a reader has open belong to attributes the writer has open. */
  predicate AttrsKnown(ws: WriterState, st: ReaderState) {
    forall i, j | 0 <= i < |st.files| && 0 <= j < |st.files[i].attrs| ::
      OpenAttr(ws, st.files[i].filenum, st.files[i].attrs[j].attrid)
  }

  lemma AddDataKnown(c: Caller, ws: WriterState, st: ReaderState, f: u16, a: u16, eoa: bool, data: seq<byte>)
    requires AttrsKnown(ws, st) && OpenAttr(ws, f, a)
    ensures AttrsKnown(ws, AddData(c, st, f, a, eoa, data))
  {
    if Receives(st, f) {
      var i := FindFile(st.files, f);
      var attrs := st.files[i].attrs;
      var left := AddData(c, st, f, a, eoa, data).files[i].attrs;
      forall j | 0 <= j < |left| ensures OpenAttr(ws, f, left[j].attrid) {
        assert left[j].attrid == a || exists k | 0 <= k < |attrs| :: attrs[k].attrid == left[j].attrid;
      }
    }
  }

  /** No other file has the attribute open, as far as the reader can see. */
  lemma NoRival(ws: WriterState, st: ReaderState, f: u16, a: u16)
    requires AllApart(ws) && AttrsKnown(ws, st) && OpenAttr(ws, f, a)
    ensures !Overlaps(st, f, a)
  {}

  lemma {:induction false} NeverOverlapsAppend(c: Caller, st: ReaderState, xs: seq<Item>, ys: seq<Item>)
    requires NeverOverlaps(c, st, xs) && NeverOverlaps(c, Fold(c, st, xs), ys)
    ensures NeverOverlaps(c, st, xs + ys)
    decreases |xs|
  {
    hide Step, Overlaps;
    if xs == [] {
      assert xs + ys == ys;
    } else {
      assert (xs + ys)[1..] == xs[1..] + ys;
      NeverOverlapsAppend(c, Step(c, st, xs[0]), xs[1..], ys);
    }
  }

  predicate OwnRecords(ws: WriterState, items: seq<Item>) {
    forall k | 0 <= k < |items| && items[k].Rec? && items[k].attrid >= ATTR_APP_START ::
      OpenAttr(ws, items[k].filenum, items[k].attrid)
  }

  predicate DataOnly(items: seq<Item>) {
    forall k | 0 <= k < |items| :: items[k].Rec? && items[k].attrid >= ATTR_APP_START
  }

  /** Records of open attributes overlap with nothing. */
  lemma {:induction false} DataNoOverlap(c: Caller, ws: WriterState, st: ReaderState, items: seq<Item>)
    requires AllApart(ws) && AttrsKnown(ws, st) && OwnRecords(ws, items) && DataOnly(items)
    ensures NeverOverlaps(c, st, items) && AttrsKnown(ws, Fold(c, st, items))
    decreases |items|
  {
    hide AddData, AllApart, AttrsKnown, Overlaps;
    if items != [] {
      var item := items[0];
      NoRival(ws, st, item.filenum, item.attrid);
      AddDataKnown(c, ws, st, item.filenum, item.attrid, item.eoa, item.data);
      DataNoOverlap(c, ws, Step(c, st, item), items[1..]);
    }
  }

  lemma {:induction false} ChunksOwn(ws: WriterState, f: u16, a: u16, data: seq<byte>, eoa: bool)
    requires OpenAttr(ws, f, a) && a >= ATTR_APP_START
    ensures OwnRecords(ws, Chunks(f, a, data, eoa)) && DataOnly(Chunks(f, a, data, eoa))
    ensures OwnRecords(ws, FdChunks(f, a, data, eoa)) && DataOnly(FdChunks(f, a, data, eoa))
    decreases |data|
  {
    if |data| >= MAX_RECORD_DATA_SIZE {
      ChunksOwn(ws, f, a, data[MAX_RECORD_DATA_SIZE..], eoa);
    }
  }

  lemma {:induction false} EndRecordsOwn(ws: WriterState, f: u16, order: seq<u16>)
    requires forall k | 0 <= k < |order| :: OpenAttr(ws, f, order[k]) && order[k] >= ATTR_APP_START
    ensures OwnRecords(ws, EndRecords(f, order)) && DataOnly(EndRecords(f, order))
  {
    if order != [] {
      EndRecordsOwn(ws, f, order[1..]);
    }
  }

  lemma SetEndedKnown(ws: WriterState, st: ReaderState, f: u16, a: u16, ended: bool)
    requires AttrsKnown(ws, st) && f in ws.files
    ensures AttrsKnown(SetEnded(ws, f, a, ended), st)
  {}

  lemma DataOpNoOverlap(c: Caller, ws: WriterState, st: ReaderState, f: u16, a: u16, ended: bool, items: seq<Item>)
    requires AllApart(ws) && AttrsKnown(ws, st) && OwnRecords(ws, items) && DataOnly(items) && f in ws.files
    ensures NeverOverlaps(c, st, items) && AttrsKnown(SetEnded(ws, f, a, ended), Fold(c, st, items))
  {
    DataNoOverlap(c, ws, st, items);
    SetEndedKnown(ws, Fold(c, st, items), f, a, ended);
  }

  lemma StartKnown(c: Caller, ws: WriterState, st: ReaderState, f: u16, name: seq<byte>)
    requires AttrsKnown(ws, st) && f !in ws.files
    ensures AttrsKnown(WriterState(f, ws.files[f := map[]]), Start(c, st, f, name))
  {
    var files := Start(c, st, f, name).files;
    assert forall k | 0 < k < |files| :: files[k] == st.files[k - 1];
  }

  lemma NewFileNoOverlap(c: Caller, ws: WriterState, asked: Asked, st: ReaderState, name: seq<byte>, header: bool)
    requires Matches(ws, asked) && SameFiles(asked, st)
    requires Legal(ws, NewFile(name, header)) && Fresh(ws, NewFile(name, header)) && AttrsKnown(ws, st)
    ensures var op := NewFile(name, header);
      NeverOverlaps(c, st, Records(ws, op)) && AttrsKnown(After(ws, op), Fold(c, st, Records(ws, op)))
  {
    if !Refused(ws, name) {
      NewFileFold(c, ws, asked, st, name, header);
      NameNoOverlap(c, st, NextFilenum(ws), name, header);
      hide Fold, NeverOverlaps, SameFiles, Matches;
      StartKnown(c, ws, st, NextFilenum(ws), name);
    }
  }

  /** What one call writes overlaps with nothing. */
  lemma OpNoOverlap(c: Caller, ws: WriterState, asked: Asked, st: ReaderState, op: Op)
    requires Matches(ws, asked) && AppAttrs(ws) && SameFiles(asked, st) && Legal(ws, op) && Fresh(ws, op)
    requires AllApart(ws) && AttrsKnown(ws, st)
    ensures NeverOverlaps(c, st, Records(ws, op))
    ensures AttrsKnown(After(ws, op), Fold(c, st, Records(ws, op)))
  {
    hide Fold, NeverOverlaps, AttrsKnown, SameFiles, AllApart, SetEnded, Chunks, FdChunks;
    match op
    case NewFile(name, header) =>
      NewFileNoOverlap(c, ws, asked, st, name, header);
    case NewAttr(f, a) =>
      DataOpNoOverlap(c, ws, st, f, a, false, []);
    case AddBuffer(f, a, data, eoa) =>
      ChunksOwn(ws, f, a, data, eoa);
      DataOpNoOverlap(c, ws, st, f, a, eoa, Chunks(f, a, data, eoa));
    case AddFd(f, a, data, eoa) =>
      ChunksOwn(ws, f, a, data, eoa);
      DataOpNoOverlap(c, ws, st, f, a, eoa, FdChunks(f, a, data, eoa));
    case CloseAttr(f, a) =>
      DataOpNoOverlap(c, ws, st, f, a, true, Records(ws, op));
    case CloseFile(f, order) =>
      CloseNoOverlap(c, ws, asked, st, f, order);
  }

  lemma NameNoOverlap(c: Caller, st: ReaderState, f: u16, name: seq<byte>, header: bool)
    ensures NeverOverlaps(c, st, (if header then [Header] else []) + [Rec(f, ATTR_FILENAME, true, name)])
  {
    var items := (if header then [Header] else []) + [Rec(f, ATTR_FILENAME, true, name)];
    if header {
      assert items[1..] == [Rec(f, ATTR_FILENAME, true, name)];
    }
  }

  lemma CloseNoOverlap(c: Caller, ws: WriterState, asked: Asked, st: ReaderState, f: u16, order: seq<u16>)
    requires Matches(ws, asked) && AppAttrs(ws) && SameFiles(asked, st) && Legal(ws, CloseFile(f, order))
    requires AllApart(ws) && AttrsKnown(ws, st)
    ensures var op := Op.CloseFile(f, order);
      NeverOverlaps(c, st, Records(ws, op)) && AttrsKnown(After(ws, op), Fold(c, st, Records(ws, op)))
  {
    var last := [Rec(f, ATTR_EOF, true, [])];
    EndRecordsOwn(ws, f, order);
    DataNoOverlap(c, ws, st, EndRecords(f, order));
    NeverOverlapsAppend(c, st, EndRecords(f, order), last);
    FoldAppend(c, st, EndRecords(f, order), last);
    EndRecordsEnds(c, asked, st, f, order);
    var st1 := Fold(c, st, EndRecords(f, order));
    assert SameFiles(GiveEnds(c, asked, f, order), st1);
    FoldOne(c, st1, last[0]);
    ClosedKnown(c, ws, st1, f);
  }

  lemma ClosedKnown(c: Caller, ws: WriterState, st: ReaderState, f: u16)
    requires AttrsKnown(ws, st) && Unique(st)
    ensures AttrsKnown(ws.(files := ws.files - {f}), CloseFound(c, st, f, false))
  {
    hide CloseAttrs, FindAttr, CloseAll;
    var i := FindFile(st.files, f);
    var files := CloseFound(c, st, f, false).files;
    assert forall k | 0 <= k < |files| :: files[k] == st.files[if k < i then k else k + 1] && files[k].filenum != f;
    hide FindFile, Without;
  }

  /** In a run that keeps attribute numbers apart, no two files' attributes overlap. */
  lemma {:induction false} RunNoOverlap(c: Caller, ws: WriterState, asked: Asked, st: ReaderState, ops: seq<Op>)
    requires LegalRun(ws, ops) && FreshRun(ws, ops) && ApartRun(ws, ops)
    requires Matches(ws, asked) && AppAttrs(ws) && SameFiles(asked, st) && AllApart(ws) && AttrsKnown(ws, st)
    ensures NeverOverlaps(c, st, ItemsOf(ws, ops))
    decreases |ops|
  {
    hide SameFiles, Fresh, Ask, After, Records, Legal, AppAttrs, Ends, Apart, AllApart, AttrsKnown, NeverOverlaps;
    if ops == [] {
      NothingOverlaps(c, st);
    } else {
      AskMatches(c, ws, asked, ops[0]);
      AppAttrsAfter(ws, ops[0]);
      OpEnds(c, ws, asked, st, ops[0]);
      OpNoOverlap(c, ws, asked, st, ops[0]);
      AllApartAfter(ws, ops[0]);
      var items := Records(ws, ops[0]);
      RunNoOverlap(c, After(ws, ops[0]), Ask(c, ws, asked, ops[0]), Fold(c, st, items), ops[1..]);
      NeverOverlapsAppend(c, st, items, ItemsOf(After(ws, ops[0]), ops[1..]));
    }
  }

  lemma NothingOverlaps(c: Caller, st: ReaderState)
    ensures NeverOverlaps(c, st, [])
  {}

  // ---------- whole archives ----------

  lemma ArchiveWellFormed(ops: seq<Op>)
    requires LegalRun(NO_FILES, ops) && FreshRun(NO_FILES, ops)
    ensures AllWellFormed(ArchiveItems(ops)) && KnownAttrids(ArchiveItems(ops))
  {
    RunWellFormed(NO_FILES, ops);
  }

  lemma NoFilesLeft(c: Caller, ops: seq<Op>)
    requires LegalRun(NO_FILES, ops) && FreshRun(NO_FILES, ops) && WsAfter(NO_FILES, ops).files == map[]
    ensures Fold(c, INITIAL, ArchiveItems(ops)).files == []
  {
    FoldAppend(c, INITIAL, FIRST, ItemsOf(NO_FILES, ops));
    FoldOne(c, INITIAL, Header);
    RunFiles(c, NO_FILES, NOTHING, INITIAL, ops);
    NoneOpen(AskedAfter(c, NO_FILES, NOTHING, ops), Fold(c, INITIAL, ArchiveItems(ops)));
  }

  lemma NoneOpen(asked: Asked, st: ReaderState)
    requires SameFiles(asked, st) && asked.files.Keys == {}
    ensures st.files == []
  {
    hide SameFiles;
    if st.files != [] {
      FileIsAsked(asked, st, 0);
    }
  }

  lemma FileIsAsked(asked: Asked, st: ReaderState, i: nat)
    requires SameFiles(asked, st) && i < |st.files|
    ensures st.files[i].filenum in asked.files.Keys
  {}

  lemma {:induction false} RunFiles(c: Caller, ws: WriterState, asked: Asked, st: ReaderState, ops: seq<Op>)
    requires Matches(ws, asked) && AppAttrs(ws) && SameFiles(asked, st) && LegalRun(ws, ops) && FreshRun(ws, ops)
    ensures Matches(WsAfter(ws, ops), AskedAfter(c, ws, asked, ops))
    ensures SameFiles(AskedAfter(c, ws, asked, ops), Fold(c, st, ItemsOf(ws, ops)))
    decreases |ops|
  {
    hide SameFiles, Fresh, Ask, After, Records, Legal, AppAttrs, Ends;
    if ops != [] {
      AskMatches(c, ws, asked, ops[0]);
      AppAttrsAfter(ws, ops[0]);
      OpEnds(c, ws, asked, st, ops[0]);
      var items := Records(ws, ops[0]);
      FoldAppend(c, st, items, ItemsOf(After(ws, ops[0]), ops[1..]));
      RunFiles(c, After(ws, ops[0]), Ask(c, ws, asked, ops[0]), Fold(c, st, items), ops[1..]);
    }
  }

  lemma ArchiveBegins(ops: seq<Op>)
    requires LegalRun(NO_FILES, ops) && FreshRun(NO_FILES, ops)
    ensures AllWellFormed(ArchiveItems(ops)) && ArchiveItems(ops) != [] && ArchiveItems(ops)[0] == Header
  {
    ArchiveWellFormed(ops);
  }

  lemma ApartNoOverlap(c: Caller, ops: seq<Op>)
    requires LegalRun(NO_FILES, ops) && FreshRun(NO_FILES, ops) && ApartRun(NO_FILES, ops)
    ensures NeverOverlaps(c, INITIAL, ArchiveItems(ops))
  {
    RunNoOverlap(c, NO_FILES, NOTHING, INITIAL, ops);
    FoldOne(c, INITIAL, Header);
    NeverOverlapsAppend(c, INITIAL, FIRST, ItemsOf(NO_FILES, ops));
  }

  // ---------- many files at once ----------

  /** New files, none of which is closed. */
  function Opening(names: seq<seq<byte>>, headers: seq<bool>): (ops: seq<Op>)
    requires |headers| == |names|
    ensures |ops| == |names| && forall i | 0 <= i < |names| :: ops[i] == Op.NewFile(names[i], headers[i])
  {
    seq(|names|, i requires 0 <= i < |names| => Op.NewFile(names[i], headers[i]))
  }

  predicate Short(names: seq<seq<byte>>) {
    forall i | 0 <= i < |names| :: 0 < |names[i]| <= 4 * 1024 * 1024
  }

  /** The files 1 to n are open and have no attributes. */
  predicate Numbered(ws: WriterState, n: nat) {
    && ws.maxFilenum == n && |ws.files| == n
    && (forall f: u16 :: f in ws.files <==> 1 <= f <= n)
    && (forall f | f in ws.files :: ws.files[f] == map[])
  }

  /** The reader has started n files with the names. */
  predicate StartsWere(out: seq<Obs>, n: nat, names: seq<seq<byte>>) {
    |out| == |names| && forall i | 0 <= i < |names| :: n + i + 1 < 65536 && out[i] == Started(n + i + 1, names[i])
  }

  /** No number beyond n is in use. */
  predicate UpTo(st: ReaderState, n: nat) {
    forall i | 0 <= i < |st.files| :: st.files[i].filenum <= n
  }

  lemma OneOpened(ws: WriterState, n: nat, name: seq<byte>, header: bool)
    requires Numbered(ws, n) && n < 0x414c && 0 < |name| <= 4 * 1024 * 1024
    ensures var op := Op.NewFile(name, header);
      && Legal(ws, op) && Numbered(After(ws, op), n + 1)
      && Records(ws, op) == Headers(header) + [Rec(n + 1, ATTR_FILENAME, true, name)]
  {}

  lemma OneStarted(c: Caller, st: ReaderState, n: nat, name: seq<byte>, header: bool)
    requires UpTo(st, n) && n < 0x414c
    ensures var st' := Fold(c, st, Headers(header) + [Rec(n + 1, ATTR_FILENAME, true, name)]);
      UpTo(st', n + 1) && st'.out == st.out + [Started(n + 1, name)]
  {
    var item := Rec(n + 1, ATTR_FILENAME, true, name);
    assert FindFile(st.files, n + 1) == |st.files|;
    FoldOne(c, st, item);
    FoldAppend(c, st, Headers(header), [item]);
    if header {
      FoldOne(c, st, Header);
    }
  }

  lemma StartsFirst(out: seq<Obs>, before: seq<Obs>, n: nat, names: seq<seq<byte>>)
    requires names != [] && n < 65535 && before + [Started(n + 1, names[0])] <= out
    requires StartsWere(out[|before| + 1..], n + 1, names[1..])
    ensures before <= out && StartsWere(out[|before|..], n, names)
  {
    var starts, rest := out[|before|..], out[|before| + 1..];
    assert starts[0] == out[|before|] == Started(n + 1, names[0]);
    forall i | 0 < i < |names| ensures n + i + 1 < 65536 && starts[i] == Started(n + i + 1, names[i]) {
      assert starts[i] == rest[i - 1] && names[i] == names[1..][i - 1];
    }
  }

  lemma RunFirst(ws: WriterState, ops: seq<Op>)
    requires ops != [] && Legal(ws, ops[0]) && LegalRun(After(ws, ops[0]), ops[1..])
    ensures LegalRun(ws, ops) && WsAfter(ws, ops) == WsAfter(After(ws, ops[0]), ops[1..])
    ensures ItemsOf(ws, ops) == Records(ws, ops[0]) + ItemsOf(After(ws, ops[0]), ops[1..])
  {}

  /** The calls are legal, and afterwards the files up to number n + |names| are open and started. */
  ghost predicate Opened(c: Caller, ws: WriterState, st: ReaderState, n: nat, names: seq<seq<byte>>, ops: seq<Op>) {
    && LegalRun(ws, ops) && Numbered(WsAfter(ws, ops), n + |names|)
    && st.out <= Fold(c, st, ItemsOf(ws, ops)).out
    && StartsWere(Fold(c, st, ItemsOf(ws, ops)).out[|st.out|..], n, names)
  }

  lemma OpenedFirst(c: Caller, ws: WriterState, st: ReaderState, n: nat, names: seq<seq<byte>>, ops: seq<Op>)
    requires names != [] && ops != [] && Legal(ws, ops[0]) && n < 65535
    requires Fold(c, st, Records(ws, ops[0])).out == st.out + [Started(n + 1, names[0])]
    requires Opened(c, After(ws, ops[0]), Fold(c, st, Records(ws, ops[0])), n + 1, names[1..], ops[1..])
    ensures Opened(c, ws, st, n, names, ops)
  {
    hide Numbered, Legal, After, Records, Fold, StartsWere, LegalRun, ItemsOf, WsAfter;
    var ws1 := After(ws, ops[0]);
    RunFirst(ws, ops);
    FoldAppend(c, st, Records(ws, ops[0]), ItemsOf(ws1, ops[1..]));
    StartsFirst(Fold(c, st, ItemsOf(ws, ops)).out, st.out, n, names);
  }

  lemma {:induction false} AllOpened(c: Caller, ws: WriterState, st: ReaderState, n: nat, names: seq<seq<byte>>, headers: seq<bool>)
    requires |headers| == |names| && Short(names) && Numbered(ws, n) && n + |names| <= 0x414c && UpTo(st, n)
    ensures Opened(c, ws, st, n, names, Opening(names, headers))
    decreases |names|
  {
    var ops := Opening(names, headers);
    if names != [] {
      assert Short(names[1..]);
      OneOpened(ws, n, names[0], headers[0]);
      OneStarted(c, st, n, names[0], headers[0]);
      assert ops[1..] == Opening(names[1..], headers[1..]);
      hide *;
      AllOpened(c, After(ws, ops[0]), Fold(c, st, Records(ws, ops[0])), n + 1, names[1..], headers[1..]);
      OpenedFirst(c, ws, st, n, names, ops);
    }
  }

  /** Files may be open at the same time: as many as 0x414c, with any short names, are made without a
      close between, get the numbers from 1 on, and are all open then; the reader starts them in order. */
  lemma ManyFilesOpen(c: Caller, names: seq<seq<byte>>, headers: seq<bool>)
    requires |headers| == |names| <= 0x414c && forall i | 0 <= i < |names| :: 0 < |names[i]| <= 4 * 1024 * 1024
    ensures var ops := Opening(names, headers);
      && LegalRun(NO_FILES, ops)
      && |WsAfter(NO_FILES, ops).files| == |names|
      && (forall f: u16 :: f in WsAfter(NO_FILES, ops).files <==> 1 <= f <= |names|)
      && StartsWere(Fold(c, INITIAL, ArchiveItems(ops)).out, 0, names)
  {
    var ops := Opening(names, headers);
    AllOpened(c, NO_FILES, INITIAL, 0, names, headers);
    FoldAppend(c, INITIAL, FIRST, ItemsOf(NO_FILES, ops));
    FoldOne(c, INITIAL, Header);
    var out := Fold(c, INITIAL, ArchiveItems(ops)).out;
    assert out[|INITIAL.out|..] == out;
  }

  /** The n files that were started, the newest first, with no attributes. */
  predicate NewestFirst(c: Caller, files: seq<FileState>) {
    |files| < 65536 && forall i | 0 <= i < |files| :: files[i].filenum == |files| - i && files[i].attrs == [] && !files[i].ignore
  }

  lemma StartsNewest(c: Caller, st: ReaderState, name: seq<byte>, header: bool)
    requires NewestFirst(c, st.files) && |st.files| < 0x414c && forall f, name :: !c.ignores(f, name)
    ensures var st' := Fold(c, st, Headers(header) + [Rec(|st.files| + 1, ATTR_FILENAME, true, name)]);
      NewestFirst(c, st'.files) && |st'.files| == |st.files| + 1
  {
    var item := Rec(|st.files| + 1, ATTR_FILENAME, true, name);
    assert FindFile(st.files, item.filenum) == |st.files|;
    FoldOne(c, st, item);
    FoldAppend(c, st, Headers(header), [item]);
    if header {
      FoldOne(c, st, Header);
    }
  }

  lemma {:induction false} AllNewest(c: Caller, ws: WriterState, st: ReaderState, names: seq<seq<byte>>, headers: seq<bool>)
    requires |headers| == |names| && Short(names) && Numbered(ws, |st.files|) && |st.files| + |names| <= 0x414c
    requires NewestFirst(c, st.files) && forall f, name :: !c.ignores(f, name)
    ensures var ops := Opening(names, headers);
      LegalRun(ws, ops)
      && NewestFirst(c, Fold(c, st, ItemsOf(ws, ops)).files) && |Fold(c, st, ItemsOf(ws, ops)).files| == |st.files| + |names|
    decreases |names|
  {
    var ops := Opening(names, headers);
    if names != [] {
      assert Short(names[1..]);
      OneOpened(ws, |st.files|, names[0], headers[0]);
      StartsNewest(c, st, names[0], headers[0]);
      assert ops[1..] == Opening(names[1..], headers[1..]);
      hide *;
      var ws1, st1 := After(ws, ops[0]), Fold(c, st, Records(ws, ops[0]));
      AllNewest(c, ws1, st1, names[1..], headers[1..]);
      RunFirst(ws, ops);
      FoldAppend(c, st, Records(ws, ops[0]), ItemsOf(ws1, ops[1..]));
    }
  }

  lemma {:induction false} ClosesInOrder(c: Caller, files: seq<FileState>)
    requires NewestFirst(c, files)
    ensures |CloseAll(c, files)| == |files|
    ensures forall i | 0 <= i < |files| :: CloseAll(c, files)[i] == Finished(|files| - i, true)
  {
    if files != [] {
      assert CloseAll(c, files) == [Finished(|files|, true)] + CloseAll(c, files[1..]) by {
        assert CloseAttrs(c, files[0].filenum, []) == [];
        assert AmarSemantics.CloseFile(c, files[0], true) == [Finished(|files|, true)];
      }
      ClosesInOrder(c, files[1..]);
    }
  }

  /** Files that are open when an archive ends are finished in the reverse order of their starts. */
  lemma LastStartedFirstFinished(c: Caller, names: seq<seq<byte>>, headers: seq<bool>)
    requires |headers| == |names| <= 0x414c && forall i | 0 <= i < |names| :: 0 < |names[i]| <= 4 * 1024 * 1024
    requires forall f, name :: !c.ignores(f, name)
    ensures LegalRun(NO_FILES, Opening(names, headers))
    ensures var ends := CloseAll(c, Fold(c, INITIAL, ArchiveItems(Opening(names, headers))).files);
      |ends| == |names| && forall i | 0 <= i < |names| :: ends[i] == Finished(|names| - i, true)
  {
    var ops := Opening(names, headers);
    AllNewest(c, NO_FILES, INITIAL, names, headers);
    FoldAppend(c, INITIAL, FIRST, ItemsOf(NO_FILES, ops));
    FoldOne(c, INITIAL, Header);
    ClosesInOrder(c, Fold(c, INITIAL, ArchiveItems(ops)).files);
  }

  /** An attribute begins in the one file that is open. */
  lemma OneBegins(c: Caller, f: u16, attrs: seq<AttrState>, out: seq<Obs>, a: u16, d: seq<byte>)
    requires c.wants(a) && a >= ATTR_APP_START && FindAttr(attrs, a) == |attrs|
    ensures Step(c, ReaderState([FileState(f, false, attrs)], out), Rec(f, a, false, d)) ==
      ReaderState([FileState(f, false, [AttrState(a, d)] + attrs)], out)
  {
    var files := [FileState(f, false, attrs)];
    assert FindFile(files, f) == 0;
    assert [] + d == d;
    assert AllData(c, attrs, a, d) == d;
    assert SetAttrs(files, 0, [AttrState(a, d)] + attrs) == [FileState(f, false, [AttrState(a, d)] + attrs)];
  }

  lemma OneEnds(c: Caller, f: u16, x: AttrState, y: AttrState, out: seq<Obs>)
    requires c.wants(x.attrid) && c.wants(y.attrid)
    ensures Step(c, ReaderState([FileState(f, false, [x, y])], out), Rec(f, ATTR_EOF, true, [])).out ==
      out + [Attr(f, x.attrid, x.data, true), Attr(f, y.attrid, y.data, true), Finished(f, false)]
  {
    assert FindFile([FileState(f, false, [x, y])], f) == 0;
    assert [x, y][1..] == [y] && [y][1..] == [];
    assert CloseAttrs(c, f, []) == [];
    assert CloseAttrs(c, f, [y]) == [Attr(f, y.attrid, y.data, true)];
  }

  /** So are the attributes of a file that it leaves open. */
  lemma LastBegunFirstEnded(c: Caller, f: u16, name: seq<byte>, a: u16, b: u16, d: seq<byte>, e: seq<byte>)
    requires !c.ignores(f, name) && c.wants(a) && c.wants(b) && a != b && a >= ATTR_APP_START && b >= ATTR_APP_START
    ensures Fold(c, INITIAL, [Rec(f, ATTR_FILENAME, true, name), Rec(f, a, false, d), Rec(f, b, false, e), Rec(f, ATTR_EOF, true, [])]).out
      == [Started(f, name), Attr(f, b, e, true), Attr(f, a, d, true), Finished(f, false)]
  {
    var x, y := AttrState(a, d), AttrState(b, e);
    var out := [Started(f, name)];
    var i0, i1, i2, i3 := Rec(f, ATTR_FILENAME, true, name), Rec(f, a, false, d), Rec(f, b, false, e), Rec(f, ATTR_EOF, true, []);
    assert Step(c, INITIAL, i0) == ReaderState([FileState(f, false, [])], out);
    OneBegins(c, f, [], out, a, d);
    assert FindAttr([x], b) == 1;
    OneBegins(c, f, [x], out, b, e);
    assert [x] + [] == [x] && [y] + [x] == [y, x];
    OneEnds(c, f, y, x, out);
    hide Step;
    FoldFour(c, INITIAL, i0, i1, i2, i3);
  }

  lemma FoldFour(c: Caller, st: ReaderState, i0: Item, i1: Item, i2: Item, i3: Item)
    ensures Fold(c, st, [i0, i1, i2, i3]) == Step(c, Step(c, Step(c, Step(c, st, i0), i1), i2), i3)
  {
    hide Step;
    FoldFirst(c, st, i0, [i1, i2, i3]);
    FoldFirst(c, Step(c, st, i0), i1, [i2, i3]);
    FoldFirst(c, Step(c, Step(c, st, i0), i1), i2, [i3]);
    FoldOne(c, Step(c, Step(c, Step(c, st, i0), i1), i2), i3);
    assert [i0] + [i1, i2, i3] == [i0, i1, i2, i3] && [i1] + [i2, i3] == [i1, i2, i3] && [i2] + [i3] == [i2, i3];
  }

  lemma FoldFirst(c: Caller, st: ReaderState, item: Item, items: seq<Item>)
    ensures Fold(c, st, [item] + items) == Fold(c, Step(c, st, item), items)
  {
    hide Step;
    assert ([item] + items)[1..] == items;
  }
}

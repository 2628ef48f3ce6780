/** Reading back what was written: which runs of writer calls a reader sees exactly. */
module AmarRoundTrip {
  import opened AmarFormat
  import opened Text
  import opened AmarSemantics
  import opened AmarWriter

  // ---------- what the caller of the writer asked for ----------

  /** Whether the reading caller will ignore the file, and the bytes added to each attribute. */
  datatype AskedFile = AskedFile(ignore: bool, attrs: map<u16, seq<byte>>)

  /** The open files, and what a reader should report so far. */
  datatype Asked = Asked(files: map<u16, AskedFile>, obs: seq<Obs>)

  const NOTHING := Asked(map[], [])

  /** More data, and possibly the end, for an attribute. */
  function Give(c: Caller, asked: Asked, f: u16, a: u16, data: seq<byte>, eoa: bool): Asked
    requires f in asked.files && a in asked.files[f].attrs
  {
    var file := asked.files[f];
    var all := file.attrs[a] + data;
    var attrs: map<u16, seq<byte>> := file.attrs[a := all];
    Asked(asked.files[f := file.(attrs := attrs)],
          asked.obs + if eoa && c.wants(a) && !file.ignore then [Attr(f, a, all, false)] else [])
  }

  function GiveEnds(c: Caller, asked: Asked, f: u16, order: seq<u16>): (r: Asked)
    requires f in asked.files && forall k | 0 <= k < |order| :: order[k] in asked.files[f].attrs
    ensures f in r.files && r.files[f].ignore == asked.files[f].ignore
    decreases |order|
  {
    if order == [] then asked else GiveEnds(c, Give(c, asked, f, order[0], [], true), f, order[1..])
  }

  /** The writer's files are the files asked for. */
  predicate Matches(ws: WriterState, asked: Asked) {
    && ws.files.Keys == asked.files.Keys
    && forall f | f in ws.files :: ws.files[f].Keys == asked.files[f].attrs.Keys
  }

  function Ask(c: Caller, ws: WriterState, asked: Asked, op: Op): Asked
    requires Legal(ws, op) && Matches(ws, asked)
  {
    match op
    case NewFile(name, header) =>
      if Refused(ws, name) then asked
      else
        var f := NextFilenum(ws);
        Asked(asked.files[f := AskedFile(c.ignores(f, name), map[])], asked.obs + [Started(f, name)])
    case NewAttr(f, a) =>
      var attrs: map<u16, seq<byte>> := asked.files[f].attrs[a := []];
      asked.(files := asked.files[f := asked.files[f].(attrs := attrs)])
    case AddBuffer(f, a, data, eoa) => Give(c, asked, f, a, data, eoa)
    case AddFd(f, a, data, eoa) => Give(c, asked, f, a, data, eoa)
    case CloseAttr(f, a) => if ws.files[f][a] then asked else Give(c, asked, f, a, [], true)
    case CloseFile(f, order) =>
      var asked' := GiveEnds(c, asked, f, order);
      Asked(asked'.files - {f}, asked'.obs + if asked.files[f].ignore then [] else [Finished(f, false)])
  }

  lemma {:induction false} GiveEndsKeys(c: Caller, asked: Asked, f: u16, order: seq<u16>)
    requires f in asked.files && forall k | 0 <= k < |order| :: order[k] in asked.files[f].attrs
    ensures GiveEnds(c, asked, f, order).files.Keys == asked.files.Keys
    ensures forall g | g in asked.files :: GiveEnds(c, asked, f, order).files[g].attrs.Keys == asked.files[g].attrs.Keys
    decreases |order|
  {
    if order != [] {
      GiveEndsKeys(c, Give(c, asked, f, order[0], [], true), f, order[1..]);
    }
  }

  lemma AskMatches(c: Caller, ws: WriterState, asked: Asked, op: Op)
    requires Legal(ws, op) && Matches(ws, asked)
    ensures Matches(After(ws, op), Ask(c, ws, asked, op))
  {
    if op.CloseFile? {
      GiveEndsKeys(c, asked, op.filenum, op.order);
    }
  }

  // ---------- runs ----------

  predicate LegalRun(ws: WriterState, ops: seq<Op>)
    decreases |ops|
  {
    ops != [] ==> Legal(ws, ops[0]) && LegalRun(After(ws, ops[0]), ops[1..])
  }

  function WsAfter(ws: WriterState, ops: seq<Op>): WriterState
    requires LegalRun(ws, ops)
    decreases |ops|
  {
    if ops == [] then ws else WsAfter(After(ws, ops[0]), ops[1..])
  }

  function ItemsOf(ws: WriterState, ops: seq<Op>): seq<Item>
    requires LegalRun(ws, ops)
    decreases |ops|
  {
    if ops == [] then [] else Records(ws, ops[0]) + ItemsOf(After(ws, ops[0]), ops[1..])
  }

  function AskedAfter(c: Caller, ws: WriterState, asked: Asked, ops: seq<Op>): Asked
    requires LegalRun(ws, ops) && Matches(ws, asked)
    decreases |ops|
  {
    if ops == [] then asked
    else
      AskMatches(c, ws, asked, ops[0]);
      AskedAfter(c, After(ws, ops[0]), Ask(c, ws, asked, ops[0]), ops[1..])
  }

  /** The number a new file gets is neither in use nor the one that looks like a header. */
  predicate Fresh(ws: WriterState, op: Op) {
    op.NewFile? && !Refused(ws, op.name) ==> NextFilenum(ws) !in ws.files && NextFilenum(ws) != MAGIC_FILENUM
  }

  predicate FreshRun(ws: WriterState, ops: seq<Op>)
    requires LegalRun(ws, ops)
    decreases |ops|
  {
    ops != [] ==> Fresh(ws, ops[0]) && FreshRun(After(ws, ops[0]), ops[1..])
  }

  /** A call that ends an attribute without writing a record that says so. */
  predicate EndsSilently(op: Op) {
    || (op.AddBuffer? && op.eoa && op.data == [])
    || (op.AddFd? && op.eoa && |op.data| % MAX_RECORD_DATA_SIZE == 0)
  }

  /** ... for an attribute that the reading caller receives. */
  predicate LosesEnd(c: Caller, asked: Asked, op: Op) {
    EndsSilently(op) && c.wants(op.attrid) && op.filenum in asked.files && !asked.files[op.filenum].ignore
  }

  predicate KeepsEnds(c: Caller, ws: WriterState, asked: Asked, ops: seq<Op>)
    requires LegalRun(ws, ops) && Matches(ws, asked)
    decreases |ops|
  {
    ops != [] ==>
      && !LosesEnd(c, asked, ops[0])
      && (AskMatches(c, ws, asked, ops[0]);
          KeepsEnds(c, After(ws, ops[0]), Ask(c, ws, asked, ops[0]), ops[1..]))
  }

  // ---------- the reader's state while it follows a run ----------

  predicate Unique(st: ReaderState) {
    && (forall i, k | 0 <= i < k < |st.files| :: st.files[i].filenum != st.files[k].filenum)
    && (forall i, j, k | 0 <= i < |st.files| && 0 <= j < k < |st.files[i].attrs| ::
          st.files[i].attrs[j].attrid != st.files[i].attrs[k].attrid)
  }

  /** The same files are open. */
  predicate SameFiles(asked: Asked, st: ReaderState) {
    && Unique(st)
    && (forall f :: Known(st, f) <==> f in asked.files)
    && (forall i | 0 <= i < |st.files| :: st.files[i].filenum in asked.files
                                       && st.files[i].ignore == asked.files[st.files[i].filenum].ignore)
    && (forall i | 0 <= i < |st.files| && st.files[i].ignore :: st.files[i].attrs == [])
  }

  /** The data read of a wanted attribute is the data given, unless the attribute has ended. */
  predicate SameAttr(given: seq<byte>, ended: bool, attrs: seq<AttrState>, a: u16) {
    var j := FindAttr(attrs, a);
    if ended then j == |attrs| else given == if j < |attrs| then attrs[j].data else []
  }

  predicate SameAttrs(c: Caller, ends: map<u16, bool>, given: map<u16, seq<byte>>, attrs: seq<AttrState>) {
    && (forall a | a in ends && a in given && c.wants(a) :: SameAttr(given[a], ends[a], attrs, a))
    && (forall j | 0 <= j < |attrs| :: attrs[j].attrid in ends)
  }

  predicate SameData(c: Caller, ws: WriterState, asked: Asked, st: ReaderState) {
    && st.out == asked.obs
    && forall i | 0 <= i < |st.files| && st.files[i].filenum in ws.files && st.files[i].filenum in asked.files && !st.files[i].ignore ::
         SameAttrs(c, ws.files[st.files[i].filenum], asked.files[st.files[i].filenum].attrs, st.files[i].attrs)
  }

  // ---------- records of one attribute ----------

  lemma {:induction false} ChunksFold(c: Caller, st: ReaderState, f: u16, a: u16, data: seq<byte>, eoa: bool)
    requires a >= ATTR_APP_START
    ensures Fold(c, st, Chunks(f, a, data, eoa)) == if data == [] then st else AddData(c, st, f, a, eoa, data)
    decreases |data|
  {
    hide AddData;
    if |data| > MAX_RECORD_DATA_SIZE {
      var d, e := data[..MAX_RECORD_DATA_SIZE], data[MAX_RECORD_DATA_SIZE..];
      var item := Rec(f, a, false, d);
      assert ([item] + Chunks(f, a, e, eoa))[1..] == Chunks(f, a, e, eoa);
      ChunksFold(c, AddData(c, st, f, a, false, d), f, a, e, eoa);
      JoinParts(c, st, f, a, eoa, d, e);
      assert d + e == data;
    } else if data != [] {
      FoldOne(c, st, Rec(f, a, eoa, data));
    }
  }

  lemma {:induction false} FdChunksFold(c: Caller, st: ReaderState, f: u16, a: u16, data: seq<byte>, eoa: bool)
    requires a >= ATTR_APP_START
    ensures Fold(c, st, FdChunks(f, a, data, eoa)) ==
      if data == [] then st else AddData(c, st, f, a, eoa && |data| % MAX_RECORD_DATA_SIZE != 0, data)
    decreases |data|
  {
    hide AddData;
    if |data| >= MAX_RECORD_DATA_SIZE {
      var d, e := data[..MAX_RECORD_DATA_SIZE], data[MAX_RECORD_DATA_SIZE..];
      var item := Rec(f, a, false, d);
      assert ([item] + FdChunks(f, a, e, eoa))[1..] == FdChunks(f, a, e, eoa);
      FdChunksFold(c, AddData(c, st, f, a, false, d), f, a, e, eoa);
      assert |data| % MAX_RECORD_DATA_SIZE == |e| % MAX_RECORD_DATA_SIZE;
      assert d + e == data;
      if e == [] {
        assert d == data;
      } else {
        JoinParts(c, st, f, a, eoa && |data| % MAX_RECORD_DATA_SIZE != 0, d, e);
      }
    } else if data != [] {
      FoldOne(c, st, Rec(f, a, eoa, data));
    }
  }

  lemma FoldOne(c: Caller, st: ReaderState, item: Item)
    ensures Fold(c, st, [item]) == Step(c, st, item)
  {
    assert [item][1..] == [];
  }

  lemma JoinParts(c: Caller, st: ReaderState, f: u16, a: u16, eoa: bool, d: seq<byte>, e: seq<byte>)
    ensures AddData(c, AddData(c, st, f, a, false, d), f, a, eoa, e) == AddData(c, st, f, a, eoa, d + e)
  {
    if Receives(st, f) {
      AddDataInParts(c, st, f, a, eoa, d, e);
    }
  }

  // ---------- attributes ----------

  predicate UniqueAttrs(attrs: seq<AttrState>) {
    forall j, k | 0 <= j < k < |attrs| :: attrs[j].attrid != attrs[k].attrid
  }

  lemma HeldAt(attrs: seq<AttrState>, j: nat)
    requires UniqueAttrs(attrs) && j < |attrs|
    ensures FindAttr(attrs, attrs[j].attrid) == j
  {
    FindAttrIs(attrs, attrs[j].attrid, j);
  }

  lemma UniqueAfterEnd(attrs: seq<AttrState>, i: nat)
    requires UniqueAttrs(attrs) && i <= |attrs|
    ensures UniqueAttrs(Without(attrs, i))
  {}

  lemma LeftAt(attrs: seq<AttrState>, i: nat)
    requires i < |attrs|
    ensures |Without(attrs, i)| == |attrs| - 1
    ensures forall k | 0 <= k < i :: Without(attrs, i)[k] == attrs[k]
    ensures forall k | i <= k < |attrs| - 1 :: Without(attrs, i)[k] == attrs[k + 1]
  {}

  lemma HeldAfterEnd(attrs: seq<AttrState>, a: u16, b: u16)
    requires UniqueAttrs(attrs)
    ensures var left := Without(attrs, FindAttr(attrs, a));
      Held(left, b) == if b == a then None else Held(attrs, b)
  {
    hide FindAttr, Without;
    var i, j := FindAttr(attrs, a), FindAttr(attrs, b);
    if i == |attrs| {
      assert Without(attrs, i) == attrs by { NothingLeftOut(attrs); }
    } else {
      var left := Without(attrs, i);
      LeftAt(attrs, i);
      UniqueAfterEnd(attrs, i);
      if b == a || j == |attrs| {
        FindAttrIs(left, b, |left|);
      } else if j < i {
        HeldAt(left, j);
      } else {
        HeldAt(left, j - 1);
      }
    }
  }

  lemma NothingLeftOut(attrs: seq<AttrState>)
    ensures Without(attrs, |attrs|) == attrs
  {}

  lemma HeldAfterGrow(c: Caller, attrs: seq<AttrState>, a: u16, data: seq<byte>, b: u16)
    requires UniqueAttrs(attrs)
    ensures var more := Grow(c, attrs, a, data);
      UniqueAttrs(more) && Held(more, b) == if b == a then Some(AllData(c, attrs, a, data)) else Held(attrs, b)
  {
    hide FindAttr;
    var i, j := FindAttr(attrs, a), FindAttr(attrs, b);
    var more := Grow(c, attrs, a, data);
    if i < |attrs| {
      FindAttrIs(more, b, j);
    } else if b == a {
      FindAttrIs(more, b, 0);
    } else {
      FindAttrIs(more, b, j + 1);
    }
  }

  lemma SameAttrIsHeld(given: seq<byte>, ended: bool, attrs: seq<AttrState>, a: u16)
    ensures SameAttr(given, ended, attrs, a) <==>
      if ended then Held(attrs, a) == None else Held(attrs, a) == Some(given) || (Held(attrs, a) == None && given == [])
  {}

  /** What is said of an attribute depends only on the data held for it. */
  lemma SameHeld(given: seq<byte>, ended: bool, attrs: seq<AttrState>, attrs': seq<AttrState>, b: u16)
    requires SameAttr(given, ended, attrs, b) && Held(attrs', b) == Held(attrs, b)
    ensures SameAttr(given, ended, attrs', b)
  {
    SameAttrIsHeld(given, ended, attrs, b);
    SameAttrIsHeld(given, ended, attrs', b);
  }

  lemma OtherAttr(c: Caller, given: seq<byte>, ended: bool, attrs: seq<AttrState>, a: u16, data: seq<byte>, b: u16)
    requires UniqueAttrs(attrs) && SameAttr(given, ended, attrs, b) && b != a
    ensures SameAttr(given, ended, Without(attrs, FindAttr(attrs, a)), b)
    ensures SameAttr(given, ended, Grow(c, attrs, a, data), b)
  {
    HeldAfterEnd(attrs, a, b);
    HeldAfterGrow(c, attrs, a, data, b);
    hide SameAttr, Without, Grow, UniqueAttrs, Held;
    SameHeld(given, ended, attrs, Without(attrs, FindAttr(attrs, a)), b);
    SameHeld(given, ended, attrs, Grow(c, attrs, a, data), b);
  }

  lemma ThisAttr(c: Caller, given: seq<byte>, attrs: seq<AttrState>, a: u16, data: seq<byte>)
    requires UniqueAttrs(attrs) && SameAttr(given, false, attrs, a) && c.wants(a)
    ensures AllData(c, attrs, a, data) == given + data
    ensures SameAttr(given + data, true, Without(attrs, FindAttr(attrs, a)), a)
    ensures SameAttr(given + data, false, Grow(c, attrs, a, data), a)
  {
    HeldAfterEnd(attrs, a, a);
    HeldAfterGrow(c, attrs, a, data, a);
    assert [] + data == data;
    hide Without, Grow, UniqueAttrs;
    SameAttrIsHeld(given + data, true, Without(attrs, FindAttr(attrs, a)), a);
    SameAttrIsHeld(given + data, false, Grow(c, attrs, a, data), a);
  }

  lemma AttridsAfter(c: Caller, ends: map<u16, bool>, attrs: seq<AttrState>, a: u16, data: seq<byte>)
    requires a in ends && forall j | 0 <= j < |attrs| :: attrs[j].attrid in ends
    ensures forall j | 0 <= j < |Without(attrs, FindAttr(attrs, a))| :: Without(attrs, FindAttr(attrs, a))[j].attrid in ends
    ensures forall j | 0 <= j < |Grow(c, attrs, a, data)| :: Grow(c, attrs, a, data)[j].attrid in ends
  {}

  /** Data given to an attribute and read by a caller that wants it. */
  lemma AttrsAfter(c: Caller, ends: map<u16, bool>, given: map<u16, seq<byte>>, attrs: seq<AttrState>,
                   a: u16, data: seq<byte>, eoa: bool)
    requires UniqueAttrs(attrs) && SameAttrs(c, ends, given, attrs)
    requires a in ends && a in given && !ends[a]
    ensures c.wants(a) ==> AllData(c, attrs, a, data) == given[a] + data
    ensures SameAttrs(c, ends[a := eoa], given[a := given[a] + data],
      if eoa then Without(attrs, FindAttr(attrs, a)) else Grow(c, attrs, a, data))
  {
    hide Without, Grow, SameAttr, UniqueAttrs, FindAttr, AllData;
    var ends', given' := ends[a := eoa], given[a := given[a] + data];
    var attrs' := if eoa then Without(attrs, FindAttr(attrs, a)) else Grow(c, attrs, a, data);
    AttridsAfter(c, ends, attrs, a, data);
    if c.wants(a) {
      ThisAttr(c, given[a], attrs, a, data);
    }
    forall b | b in ends' && b in given' && c.wants(b) ensures SameAttr(given'[b], ends'[b], attrs', b) {
      if b != a {
        OtherAttr(c, given[b], ends[b], attrs, a, data, b);
        assert given'[b] == given[b] && ends'[b] == ends[b];
      } else {
        assert given'[b] == given[a] + data && ends'[b] == eoa;
      }
    }
    assert forall k | 0 <= k < |attrs'| :: attrs'[k].attrid in ends';
  }

  // ---------- the effect on the whole state ----------

  lemma SetAttrsKeepsFiles(asked: Asked, st: ReaderState, i: nat, attrs: seq<AttrState>, out: seq<Obs>)
    requires SameFiles(asked, st) && i < |st.files| && !st.files[i].ignore && UniqueAttrs(attrs)
    ensures SameFiles(asked, ReaderState(SetAttrs(st.files, i, attrs), out))
  {
    var st' := ReaderState(SetAttrs(st.files, i, attrs), out);
    forall f ensures Known(st', f) <==> f in asked.files {
      FindFileIs(st'.files, f, FindFile(st.files, f));
      assert Known(st, f) <==> f in asked.files;
    }
  }

  /** Adding data opens and closes no file. */
  lemma AddDataKeepsFiles(c: Caller, asked: Asked, st: ReaderState, f: u16, a: u16, eoa: bool, data: seq<byte>)
    requires SameFiles(asked, st)
    ensures SameFiles(asked, AddData(c, st, f, a, eoa, data))
  {
    if Receives(st, f) {
      var i := FindFile(st.files, f);
      var attrs := st.files[i].attrs;
      var st' := AddData(c, st, f, a, eoa, data);
      assert UniqueAttrs(attrs);
      UniqueAfterEnd(attrs, FindAttr(attrs, a));
      HeldAfterGrow(c, attrs, a, data, a);
      hide SameFiles, Grow, Without, UniqueAttrs;
      SetAttrsKeepsFiles(asked, st, i, if eoa then Without(attrs, FindAttr(attrs, a)) else Grow(c, attrs, a, data), st'.out);
    }
  }

  lemma SameFilesFor(asked: Asked, asked': Asked, st: ReaderState)
    requires SameFiles(asked, st) && asked'.files.Keys == asked.files.Keys
    requires forall f | f in asked.files :: asked'.files[f].ignore == asked.files[f].ignore
    ensures SameFiles(asked', st)
  {
    forall f ensures Known(st, f) <==> f in asked'.files {
      assert Known(st, f) <==> f in asked.files;
    }
  }

  lemma GiveData(c: Caller, ws: WriterState, asked: Asked, st: ReaderState, f: u16, a: u16, data: seq<byte>, eoa: bool)
    requires Matches(ws, asked) && SameFiles(asked, st) && SameData(c, ws, asked, st)
    requires OpenAttr(ws, f, a) && !ws.files[f][a]
    ensures SameFiles(Give(c, asked, f, a, data, eoa), AddData(c, st, f, a, eoa, data))
    ensures SameData(c, SetEnded(ws, f, a, eoa), Give(c, asked, f, a, data, eoa), AddData(c, st, f, a, eoa, data))
  {
    AddDataKeepsFiles(c, asked, st, f, a, eoa, data);
    SameFilesFor(asked, Give(c, asked, f, a, data, eoa), AddData(c, st, f, a, eoa, data));
    assert Known(st, f);
    var i := FindFile(st.files, f);
    if !st.files[i].ignore {
      GiveReceived(c, ws, asked, st, i, a, data, eoa);
    }
  }

  lemma GiveReceived(c: Caller, ws: WriterState, asked: Asked, st: ReaderState, i: nat, a: u16, data: seq<byte>, eoa: bool)
    requires SameFiles(asked, st) && SameData(c, ws, asked, st)
    requires i < |st.files| && i == FindFile(st.files, st.files[i].filenum) && !st.files[i].ignore
    requires var f := st.files[i].filenum; OpenAttr(ws, f, a) && !ws.files[f][a] && f in asked.files && a in asked.files[f].attrs
    ensures var f := st.files[i].filenum;
      SameData(c, SetEnded(ws, f, a, eoa), Give(c, asked, f, a, data, eoa), AddData(c, st, f, a, eoa, data))
  {
    var f := st.files[i].filenum;
    var attrs := st.files[i].attrs;
    assert SameAttrs(c, ws.files[f], asked.files[f].attrs, attrs);
    assert UniqueAttrs(attrs);
    AttrsAfter(c, ws.files[f], asked.files[f].attrs, attrs, a, data, eoa);
    var attrs' := if eoa then Without(attrs, FindAttr(attrs, a)) else Grow(c, attrs, a, data);
    var st' := AddData(c, st, f, a, eoa, data);
    assert st'.files == SetAttrs(st.files, i, attrs');
    hide Grow, Without, SameAttrs, Give, AddData, SameFiles, UniqueAttrs;
    var ws' := SetEnded(ws, f, a, eoa);
    var asked' := Give(c, asked, f, a, data, eoa);
    GiveShape(c, asked, f, a, data, eoa);
    assert st'.out == asked'.obs by { GiveOut(c, asked, st, i, a, data, eoa); }
    forall k | 0 <= k < |st'.files| && st'.files[k].filenum in ws'.files && st'.files[k].filenum in asked'.files && !st'.files[k].ignore
      ensures SameAttrs(c, ws'.files[st'.files[k].filenum], asked'.files[st'.files[k].filenum].attrs, st'.files[k].attrs)
    {
      if k != i {
        assert st'.files[k] == st.files[k];
        assert st.files[k].filenum != f by { OtherFile(asked, st, i, k); }
      }
    }
  }

  lemma OtherFile(asked: Asked, st: ReaderState, i: nat, k: nat)
    requires SameFiles(asked, st) && i < |st.files| && k < |st.files| && i != k
    ensures st.files[i].filenum != st.files[k].filenum
  {}

  lemma GiveShape(c: Caller, asked: Asked, f: u16, a: u16, data: seq<byte>, eoa: bool)
    requires f in asked.files && a in asked.files[f].attrs
    ensures var asked' := Give(c, asked, f, a, data, eoa);
      && asked'.files.Keys == asked.files.Keys
      && asked'.files[f].attrs == asked.files[f].attrs[a := asked.files[f].attrs[a] + data]
      && forall g | g in asked.files && g != f :: asked'.files[g] == asked.files[g]
  {}

  lemma GiveOut(c: Caller, asked: Asked, st: ReaderState, i: nat, a: u16, data: seq<byte>, eoa: bool)
    requires SameFiles(asked, st) && st.out == asked.obs
    requires i < |st.files| && i == FindFile(st.files, st.files[i].filenum) && !st.files[i].ignore
    requires st.files[i].filenum in asked.files && a in asked.files[st.files[i].filenum].attrs
    requires c.wants(a) ==> AllData(c, st.files[i].attrs, a, data) == asked.files[st.files[i].filenum].attrs[a] + data
    ensures AddData(c, st, st.files[i].filenum, a, eoa, data).out == Give(c, asked, st.files[i].filenum, a, data, eoa).obs
  {
    assert asked.obs + [] == asked.obs;
  }

  // ---------- one call ----------

  /** The attributes of open files are application attributes. */
  predicate AppAttrs(ws: WriterState) {
    forall f, a | f in ws.files && a in ws.files[f] :: a >= ATTR_APP_START
  }

  lemma AppAttrsAfter(ws: WriterState, op: Op)
    requires Legal(ws, op) && AppAttrs(ws)
    ensures AppAttrs(After(ws, op))
  {}

  /** The state in which the reader follows the writer. */
  predicate Following(c: Caller, ws: WriterState, asked: Asked, st: ReaderState) {
    Matches(ws, asked) && AppAttrs(ws) && SameFiles(asked, st) && SameData(c, ws, asked, st)
  }

  /** A file whose number is not in use is started, and nothing else happens. */
  lemma NewFileFold(c: Caller, ws: WriterState, asked: Asked, st: ReaderState, name: seq<byte>, header: bool)
    requires Matches(ws, asked) && SameFiles(asked, st)
    requires Fresh(ws, NewFile(name, header)) && !Refused(ws, name)
    ensures Fold(c, st, Records(ws, NewFile(name, header))) == Start(c, st, NextFilenum(ws), name)
  {
    var f := NextFilenum(ws);
    var items := Records(ws, NewFile(name, header));
    assert !Known(st, f);
    FoldOne(c, st, Rec(f, ATTR_FILENAME, true, name));
    if header {
      assert items[1..] == [Rec(f, ATTR_FILENAME, true, name)];
      assert Fold(c, st, items) == Fold(c, Step(c, st, Header), items[1..]);
    } else {
      assert items == [Rec(f, ATTR_FILENAME, true, name)];
    }
  }

  lemma StartFiles(c: Caller, asked: Asked, st: ReaderState, f: u16, name: seq<byte>, obs: seq<Obs>)
    requires SameFiles(asked, st) && !Known(st, f)
    ensures SameFiles(Asked(asked.files[f := AskedFile(c.ignores(f, name), map[])], obs), Start(c, st, f, name))
  {
    var st' := Start(c, st, f, name);
    var asked' := Asked(asked.files[f := AskedFile(c.ignores(f, name), map[])], obs);
    assert st'.files[0].filenum == f && st'.files[1..] == st.files;
    forall g ensures Known(st', g) <==> g in asked'.files {
      FindFileIs(st'.files, g, if g == f then 0 else 1 + FindFile(st.files, g));
      assert Known(st, g) <==> g in asked.files;
    }
    StartUnique(c, st, f, name);
  }

  lemma StartUnique(c: Caller, st: ReaderState, f: u16, name: seq<byte>)
    requires Unique(st) && !Known(st, f)
    ensures Unique(Start(c, st, f, name))
  {
    assert FindFile(st.files, f) == |st.files|;
    var files := Start(c, st, f, name).files;
    assert forall k | 0 < k < |files| :: files[k] == st.files[k - 1];
  }

  lemma NewFileFiles(c: Caller, ws: WriterState, asked: Asked, st: ReaderState, name: seq<byte>, header: bool)
    requires Matches(ws, asked) && SameFiles(asked, st)
    requires Legal(ws, NewFile(name, header)) && Fresh(ws, NewFile(name, header)) && !Refused(ws, name)
    ensures SameFiles(Ask(c, ws, asked, NewFile(name, header)), Fold(c, st, Records(ws, NewFile(name, header))))
  {
    assert !Known(st, NextFilenum(ws));
    NewFileFold(c, ws, asked, st, name, header);
    StartFiles(c, asked, st, NextFilenum(ws), name, asked.obs + [Started(NextFilenum(ws), name)]);
  }

  lemma NewFileRead(c: Caller, ws: WriterState, asked: Asked, st: ReaderState, name: seq<byte>, header: bool)
    requires Following(c, ws, asked, st)
    requires Legal(ws, NewFile(name, header)) && Fresh(ws, NewFile(name, header)) && !Refused(ws, name)
    ensures var op := NewFile(name, header); SameData(c, After(ws, op), Ask(c, ws, asked, op), Fold(c, st, Records(ws, op)))
  {
    var op := NewFile(name, header);
    NewFileFold(c, ws, asked, st, name, header);
    var st', ws', asked' := Start(c, st, NextFilenum(ws), name), After(ws, op), Ask(c, ws, asked, op);
    forall k | 0 <= k < |st'.files| && st'.files[k].filenum in ws'.files && st'.files[k].filenum in asked'.files && !st'.files[k].ignore
      ensures SameAttrs(c, ws'.files[st'.files[k].filenum], asked'.files[st'.files[k].filenum].attrs, st'.files[k].attrs)
    {
      if k > 0 {
        assert st'.files[k] == st.files[k - 1];
      }
    }
  }

  lemma NewAttrRead(c: Caller, ws: WriterState, asked: Asked, st: ReaderState, f: u16, a: u16)
    requires Following(c, ws, asked, st) && Legal(ws, NewAttr(f, a))
    ensures ReadsOn(c, ws, asked, st, NewAttr(f, a))
  {
    FoldNone(c, st);
    var ws', asked' := After(ws, NewAttr(f, a)), Ask(c, ws, asked, NewAttr(f, a));
    SameFilesFor(asked, asked', st);
    hide SameFiles;
    forall k | 0 <= k < |st.files| && st.files[k].filenum in ws'.files && st.files[k].filenum in asked'.files && !st.files[k].ignore
      ensures SameAttrs(c, ws'.files[st.files[k].filenum], asked'.files[st.files[k].filenum].attrs, st.files[k].attrs)
    {
      var g := st.files[k].filenum;
      if g == f {
        NewAttrSame(c, ws.files[f], asked.files[f].attrs, st.files[k].attrs, a);
      }
    }
  }

  lemma NewAttrSame(c: Caller, ends: map<u16, bool>, given: map<u16, seq<byte>>, attrs: seq<AttrState>, a: u16)
    requires SameAttrs(c, ends, given, attrs) && a !in ends
    ensures SameAttrs(c, ends[a := false], given[a := []], attrs)
  {
    var none: seq<byte> := [];
    assert SameAttr(none, false, attrs, a);
  }

  /** What a caller does not receive may end as it likes. */
  lemma UnreceivedData(c: Caller, ws: WriterState, asked: Asked, st: ReaderState, st': ReaderState, f: u16, a: u16,
                       data: seq<byte>, eoa: bool, shown: bool)
    requires Following(c, ws, asked, st) && OpenAttr(ws, f, a)
    requires !c.wants(a) || asked.files[f].ignore
    requires st' == st || st' == AddData(c, st, f, a, shown, data)
    ensures SameData(c, SetEnded(ws, f, a, eoa), Give(c, asked, f, a, data, eoa), st')
  {
    GiveShape(c, asked, f, a, data, eoa);
    var ws', asked' := SetEnded(ws, f, a, eoa), Give(c, asked, f, a, data, eoa);
    var i := FindFile(st.files, f);
    assert Known(st, f);
    assert asked.obs + [] == asked.obs;
    assert st.files[i].ignore == asked.files[f].ignore;
    hide Give, SetEnded;
    forall k | 0 <= k < |st'.files| && st'.files[k].filenum in ws'.files && st'.files[k].filenum in asked'.files && !st'.files[k].ignore
      ensures SameAttrs(c, ws'.files[st'.files[k].filenum], asked'.files[st'.files[k].filenum].attrs, st'.files[k].attrs)
    {
      if k != i {
        OtherFile(asked, st, i, k);
      } else {
        UnwantedAttrs(c, ws.files[f], asked.files[f].attrs, st.files[i].attrs, st'.files[i].attrs, a, data, eoa, shown);
      }
    }
  }

  lemma UnwantedAttrs(c: Caller, ends: map<u16, bool>, given: map<u16, seq<byte>>, attrs: seq<AttrState>,
                      attrs': seq<AttrState>, a: u16, data: seq<byte>, eoa: bool, shown: bool)
    requires UniqueAttrs(attrs) && SameAttrs(c, ends, given, attrs) && a in ends && a in given && !c.wants(a)
    requires attrs' == attrs || attrs' == if shown then Without(attrs, FindAttr(attrs, a)) else Grow(c, attrs, a, data)
    ensures SameAttrs(c, ends[a := eoa], given[a := given[a] + data], attrs')
  {
    var ends', given' := ends[a := eoa], given[a := given[a] + data];
    AttridsAfter(c, ends, attrs, a, data);
    hide Without, Grow, SameAttr, UniqueAttrs;
    forall b | b in ends' && b in given' && c.wants(b) ensures SameAttr(given'[b], ends'[b], attrs', b) {
      OtherAttr(c, given[b], ends[b], attrs, a, data, b);
    }
  }

  // ---------- closing a file ----------

  lemma GiveFollows(c: Caller, ws: WriterState, asked: Asked, st: ReaderState, f: u16, a: u16)
    requires Following(c, ws, asked, st) && OpenAttr(ws, f, a) && !ws.files[f][a]
    ensures Following(c, SetEnded(ws, f, a, true), Give(c, asked, f, a, [], true), Step(c, st, Rec(f, a, true, [])))
  {
    hide SameFiles, SameData, AddData;
    GiveData(c, ws, asked, st, f, a, [], true);
    GiveShape(c, asked, f, a, [], true);
    AppAttrsAfter(ws, CloseAttr(f, a));
  }

  lemma {:induction false} EndsRead(c: Caller, ws: WriterState, asked: Asked, st: ReaderState, f: u16, order: seq<u16>)
    requires Following(c, ws, asked, st) && f in ws.files && LastOrder(ws.files[f], order)
    requires f in asked.files && forall k | 0 <= k < |order| :: order[k] in asked.files[f].attrs
    ensures Following(c, EndAll(ws, f, order), GiveEnds(c, asked, f, order), Fold(c, st, EndRecords(f, order)))
    ensures forall a | a in EndAll(ws, f, order).files[f] :: EndAll(ws, f, order).files[f][a]
    decreases |order|
  {
    hide Following, Step, Give;
    if order != [] {
      var a := order[0];
      GiveFollows(c, ws, asked, st, f, a);
      GiveShape(c, asked, f, a, [], true);
      LastOrderRest(ws.files[f], order);
      assert EndRecords(f, order)[1..] == EndRecords(f, order[1..]);
      EndsRead(c, SetEnded(ws, f, a, true), Give(c, asked, f, a, [], true), Step(c, st, Rec(f, a, true, [])), f, order[1..]);
    }
  }

  function EndAll(ws: WriterState, f: u16, order: seq<u16>): (r: WriterState)
    requires f in ws.files
    ensures f in r.files && r.files.Keys == ws.files.Keys
    ensures r.files - {f} == ws.files - {f}
    decreases |order|
  {
    if order == [] then ws else EndAll(SetEnded(ws, f, order[0], true), f, order[1..])
  }

  lemma LastOrderRest(attrs: map<u16, bool>, order: seq<u16>)
    requires LastOrder(attrs, order) && order != []
    ensures LastOrder(attrs[order[0] := true], order[1..])
  {
    forall a | a in attrs && !attrs[a] && a != order[0] ensures a in order[1..] {
      var k :| 0 <= k < |order| && order[k] == a;
      assert order[1..][k - 1] == a;
    }
  }

  /** Ended attributes leave nothing to report when the file is closed. */
  lemma {:induction false} NothingLeft(c: Caller, f: u16, attrs: seq<AttrState>)
    requires forall j | 0 <= j < |attrs| :: !c.wants(attrs[j].attrid)
    ensures CloseAttrs(c, f, attrs) == []
  {
    if attrs != [] {
      NothingLeft(c, f, attrs[1..]);
    }
  }

  lemma FinishFiles(c: Caller, asked: Asked, st: ReaderState, f: u16, truncated: bool, obs: seq<Obs>)
    requires SameFiles(asked, st) && f in asked.files
    ensures SameFiles(Asked(asked.files - {f}, obs), CloseFound(c, st, f, truncated))
  {
    var i := FindFile(st.files, f);
    assert Known(st, f);
    var st' := CloseFound(c, st, f, truncated);
    ClosedUnique(st, i, st'.out);
    FileLeft(st.files, i);
    hide Without, Unique, AmarSemantics.CloseFile, Known;
    forall g ensures Known(st', g) <==> g in (asked.files - {f}) {
      KnownAfterClose(st, i, g, st'.out);
      assert Known(st, g) <==> g in asked.files;
    }
  }

  lemma ClosedUnique(st: ReaderState, i: nat, out: seq<Obs>)
    requires Unique(st) && i < |st.files|
    ensures Unique(ReaderState(Without(st.files, i), out))
    ensures forall k | 0 <= k < |Without(st.files, i)| :: Without(st.files, i)[k].filenum != st.files[i].filenum
  {
    FileLeft(st.files, i);
  }

  lemma FileLeft(files: seq<FileState>, i: nat)
    requires i < |files|
    ensures forall k | 0 <= k < |Without(files, i)| :: Without(files, i)[k] == files[if k < i then k else k + 1]
  {}

  lemma KnownAfterClose(st: ReaderState, i: nat, g: u16, out: seq<Obs>)
    requires Unique(st) && i < |st.files|
    ensures Known(ReaderState(Without(st.files, i), out), g) <==> Known(st, g) && g != st.files[i].filenum
  {
    var files := Without(st.files, i);
    FileLeft(st.files, i);
    var j := FindFile(st.files, g);
    FindFileIs(files, g, if j == i || j == |st.files| then |files| else if j < i then j else j - 1);
  }

  lemma NoneWanted(c: Caller, ends: map<u16, bool>, given: map<u16, seq<byte>>, attrs: seq<AttrState>)
    requires UniqueAttrs(attrs) && SameAttrs(c, ends, given, attrs) && ends.Keys == given.Keys
    requires forall a | a in ends :: ends[a]
    ensures forall j | 0 <= j < |attrs| :: !c.wants(attrs[j].attrid)
  {
    forall j | 0 <= j < |attrs| ensures !c.wants(attrs[j].attrid) {
      var a := attrs[j].attrid;
      HeldAt(attrs, j);
      assert c.wants(a) ==> SameAttr(given[a], ends[a], attrs, a);
    }
  }

  /** Ended attributes leave nothing but the end of the file. */
  lemma FinishRead(c: Caller, ws: WriterState, asked: Asked, st: ReaderState, f: u16)
    requires Following(c, ws, asked, st) && f in ws.files && forall a | a in ws.files[f] :: ws.files[f][a]
    ensures SameData(c, ws.(files := ws.files - {f}),
      Asked(asked.files - {f}, asked.obs + if asked.files[f].ignore then [] else [Finished(f, false)]),
      CloseFound(c, st, f, false))
  {
    var i := FindFile(st.files, f);
    assert Known(st, f);
    var file := st.files[i];
    assert file.ignore == asked.files[f].ignore;
    if !file.ignore {
      NoneWanted(c, ws.files[f], asked.files[f].attrs, file.attrs);
    }
    NothingLeft(c, f, file.attrs);
    assert AmarSemantics.CloseFile(c, file, false) == if file.ignore then [] else [Finished(f, false)];
    hide SameAttrs, SameFiles, CloseAttrs, Matches, AppAttrs;
    SameDataWithout(c, ws, asked, st, i, f, asked.obs + if asked.files[f].ignore then [] else [Finished(f, false)]);
  }

  lemma SameDataWithout(c: Caller, ws: WriterState, asked: Asked, st: ReaderState, i: nat, f: u16, obs: seq<Obs>)
    requires SameData(c, ws, asked, st) && i < |st.files|
    ensures SameData(c, ws.(files := ws.files - {f}), Asked(asked.files - {f}, obs), ReaderState(Without(st.files, i), obs))
  {
    hide SameAttrs;
    assert forall k | 0 <= k < |Without(st.files, i)| :: Without(st.files, i)[k] == st.files[if k < i then k else k + 1];
  }

  // ---------- every call, and every run ----------

  lemma CloseFileRead(c: Caller, ws: WriterState, asked: Asked, st: ReaderState, f: u16, order: seq<u16>)
    requires Following(c, ws, asked, st) && Legal(ws, CloseFile(f, order))
    ensures ReadsOn(c, ws, asked, st, Op.CloseFile(f, order))
  {
    EndsRead(c, ws, asked, st, f, order);
    GiveEndsKeys(c, asked, f, order);
    var ws1, asked1, st1 := EndAll(ws, f, order), GiveEnds(c, asked, f, order), Fold(c, st, EndRecords(f, order));
    var last := Rec(f, ATTR_EOF, true, []);
    FoldAppend(c, st, EndRecords(f, order), [last]);
    FoldOne(c, st1, last);
    assert ws1.files - {f} == ws.files - {f};
    assert ws1.maxFilenum == ws.maxFilenum by { EndAllNumber(ws, f, order); }
    var obs := asked1.obs + if asked1.files[f].ignore then [] else [Finished(f, false)];
    FinishFiles(c, asked1, st1, f, false, obs);
    FinishRead(c, ws1, asked1, st1, f);
  }

  lemma {:induction false} EndAllNumber(ws: WriterState, f: u16, order: seq<u16>)
    requires f in ws.files
    ensures EndAll(ws, f, order).maxFilenum == ws.maxFilenum
    decreases |order|
  {
    if order != [] {
      EndAllNumber(SetEnded(ws, f, order[0], true), f, order[1..]);
    }
  }

  /** After the call the reader has the same files and data. */
  predicate ReadsOn(c: Caller, ws: WriterState, asked: Asked, st: ReaderState, op: Op)
    requires Legal(ws, op) && Matches(ws, asked)
  {
    && SameFiles(Ask(c, ws, asked, op), Fold(c, st, Records(ws, op)))
    && SameData(c, After(ws, op), Ask(c, ws, asked, op), Fold(c, st, Records(ws, op)))
  }

  lemma AddBufferRead(c: Caller, ws: WriterState, asked: Asked, st: ReaderState, f: u16, a: u16, data: seq<byte>, eoa: bool)
    requires Following(c, ws, asked, st) && Legal(ws, AddBuffer(f, a, data, eoa)) && !LosesEnd(c, asked, AddBuffer(f, a, data, eoa))
    ensures ReadsOn(c, ws, asked, st, AddBuffer(f, a, data, eoa))
  {
    ChunksFold(c, st, f, a, data, eoa);
    hide Fold, SameFiles, SameData, Give, AddData, Chunks, Following;
    PutRead(c, ws, asked, st, f, a, data, eoa, eoa);
  }

  lemma AddFdRead(c: Caller, ws: WriterState, asked: Asked, st: ReaderState, f: u16, a: u16, data: seq<byte>, eoa: bool)
    requires Following(c, ws, asked, st) && Legal(ws, AddFd(f, a, data, eoa)) && !LosesEnd(c, asked, AddFd(f, a, data, eoa))
    ensures ReadsOn(c, ws, asked, st, AddFd(f, a, data, eoa))
  {
    FdChunksFold(c, st, f, a, data, eoa);
    hide Fold, SameFiles, SameData, Give, AddData, FdChunks, Following;
    PutRead(c, ws, asked, st, f, a, data, eoa, eoa && |data| % MAX_RECORD_DATA_SIZE != 0);
  }

  lemma CloseAttrRead(c: Caller, ws: WriterState, asked: Asked, st: ReaderState, f: u16, a: u16)
    requires Following(c, ws, asked, st) && Legal(ws, CloseAttr(f, a))
    ensures ReadsOn(c, ws, asked, st, CloseAttr(f, a))
  {
    FoldNone(c, st);
    FoldOne(c, st, Rec(f, a, true, []));
    assert a >= ATTR_APP_START;
    hide Fold, SameFiles, SameData, Give, AddData;
    if ws.files[f][a] {
      SetEndedSame(ws, f, a);
    } else {
      GiveData(c, ws, asked, st, f, a, [], true);
    }
  }

  /** One call: if it loses no end that the reader should see, the reader keeps following. */
  lemma OpRead(c: Caller, ws: WriterState, asked: Asked, st: ReaderState, op: Op)
    requires Following(c, ws, asked, st) && Legal(ws, op) && Fresh(ws, op) && !LosesEnd(c, asked, op)
    ensures Following(c, After(ws, op), Ask(c, ws, asked, op), Fold(c, st, Records(ws, op)))
  {
    AskMatches(c, ws, asked, op);
    AppAttrsAfter(ws, op);
    FoldNone(c, st);
    hide Fold, SameFiles, SameData, Matches, AppAttrs, Ask, After, Records, LosesEnd;
    assert ReadsOn(c, ws, asked, st, op) by {
      match op
      case NewFile(name, header) => NewFileReads(c, ws, asked, st, name, header);
      case NewAttr(f, a) => NewAttrRead(c, ws, asked, st, f, a);
      case AddBuffer(f, a, data, eoa) => AddBufferRead(c, ws, asked, st, f, a, data, eoa);
      case AddFd(f, a, data, eoa) => AddFdRead(c, ws, asked, st, f, a, data, eoa);
      case CloseAttr(f, a) => CloseAttrRead(c, ws, asked, st, f, a);
      case CloseFile(f, order) => CloseFileRead(c, ws, asked, st, f, order);
    }
  }

  lemma NewFileReads(c: Caller, ws: WriterState, asked: Asked, st: ReaderState, name: seq<byte>, header: bool)
    requires Following(c, ws, asked, st) && Legal(ws, NewFile(name, header)) && Fresh(ws, NewFile(name, header))
    ensures ReadsOn(c, ws, asked, st, NewFile(name, header))
  {
    FoldNone(c, st);
    hide Fold, SameFiles, SameData;
    if !Refused(ws, name) {
      NewFileFiles(c, ws, asked, st, name, header);
      NewFileRead(c, ws, asked, st, name, header);
    }
  }

  lemma SetEndedSame(ws: WriterState, f: u16, a: u16)
    requires OpenAttr(ws, f, a)
    ensures SetEnded(ws, f, a, ws.files[f][a]) == ws
  {
    assert ws.files[f][a := ws.files[f][a]] == ws.files[f];
    assert ws.files[f := ws.files[f]] == ws.files;
  }

  /** Data that was asked to end (or not) and whose records say so (or not). */
  lemma PutRead(c: Caller, ws: WriterState, asked: Asked, st: ReaderState, f: u16, a: u16, data: seq<byte>, eoa: bool, shown: bool)
    requires Following(c, ws, asked, st) && OpenAttr(ws, f, a) && !ws.files[f][a]
    requires shown == eoa || (eoa && (!c.wants(a) || asked.files[f].ignore))
    requires data == [] && eoa ==> !c.wants(a) || asked.files[f].ignore
    ensures var st' := if data == [] then st else AddData(c, st, f, a, shown, data);
      SameFiles(Give(c, asked, f, a, data, eoa), st') &&
      SameData(c, SetEnded(ws, f, a, eoa), Give(c, asked, f, a, data, eoa), st')
  {
    var st' := if data == [] then st else AddData(c, st, f, a, shown, data);
    AddDataKeepsFiles(c, asked, st, f, a, shown, data);
    SameFilesFor(asked, Give(c, asked, f, a, data, eoa), st');
    if !c.wants(a) || asked.files[f].ignore {
      UnreceivedData(c, ws, asked, st, st', f, a, data, eoa, shown);
    } else if data != [] {
      GiveData(c, ws, asked, st, f, a, data, eoa);
    } else {
      SetEndedSame(ws, f, a);
      GiveNothing(c, asked, f, a);
    }
  }

  lemma GiveNothing(c: Caller, asked: Asked, f: u16, a: u16)
    requires f in asked.files && a in asked.files[f].attrs
    ensures Give(c, asked, f, a, [], false) == asked
  {
    var file := asked.files[f];
    assert file.attrs[a] + [] == file.attrs[a];
    assert file.attrs[a := file.attrs[a]] == file.attrs;
    assert asked.files[f := file] == asked.files;
    assert asked.obs + [] == asked.obs;
  }

  /** Every run whose numbers are fresh and whose ends are written is read back as asked. */
  lemma {:induction false} RunRead(c: Caller, ws: WriterState, asked: Asked, st: ReaderState, ops: seq<Op>)
    requires LegalRun(ws, ops) && FreshRun(ws, ops) && Following(c, ws, asked, st) && KeepsEnds(c, ws, asked, ops)
    ensures Following(c, WsAfter(ws, ops), AskedAfter(c, ws, asked, ops), Fold(c, st, ItemsOf(ws, ops)))
    decreases |ops|
  {
    hide Following, Fresh, LosesEnd, Ask, After, Records, Legal;
    if ops != [] {
      assert Matches(ws, asked) by { FollowingMatches(c, ws, asked, st); }
      AskMatches(c, ws, asked, ops[0]);
      OpRead(c, ws, asked, st, ops[0]);
      var items := Records(ws, ops[0]);
      FoldAppend(c, st, items, ItemsOf(After(ws, ops[0]), ops[1..]));
      RunRead(c, After(ws, ops[0]), Ask(c, ws, asked, ops[0]), Fold(c, st, items), ops[1..]);
    }
  }

  lemma FollowingMatches(c: Caller, ws: WriterState, asked: Asked, st: ReaderState)
    requires Following(c, ws, asked, st)
    ensures Matches(ws, asked)
  {}

  // ---------- and no other run is ----------

  /** The attributes reported complete. */
  function Ends(obs: seq<Obs>): nat {
    if obs == [] then 0 else (if obs[0].Attr? && !obs[0].truncated then 1 else 0) + Ends(obs[1..])
  }

  lemma {:induction false} EndsAppend(x: seq<Obs>, y: seq<Obs>)
    ensures Ends(x + y) == Ends(x) + Ends(y)
  {
    if x == [] {
      assert x + y == y;
    } else {
      assert (x + y)[1..] == x[1..] + y;
      EndsAppend(x[1..], y);
    }
  }

  lemma {:induction false} CloseAttrsEnds(c: Caller, f: u16, attrs: seq<AttrState>)
    ensures Ends(CloseAttrs(c, f, attrs)) == 0
  {
    if attrs != [] {
      CloseAttrsEnds(c, f, attrs[1..]);
      EndsAppend(if c.wants(attrs[0].attrid) then [Attr(f, attrs[0].attrid, attrs[0].data, true)] else [], CloseAttrs(c, f, attrs[1..]));
    }
  }

  /** The complete attributes the reader reports in a step, less those asked for. */
  function Surplus(asked: Asked, asked': Asked, st: ReaderState, st': ReaderState): int {
    (Ends(st'.out) - Ends(st.out)) - (Ends(asked'.obs) - Ends(asked.obs))
  }

  lemma PutEnds(c: Caller, asked: Asked, st: ReaderState, f: u16, a: u16, data: seq<byte>, eoa: bool, shown: bool)
    requires SameFiles(asked, st) && f in asked.files && a in asked.files[f].attrs && (shown ==> eoa)
    ensures var asked', st' := Give(c, asked, f, a, data, eoa), AddData(c, st, f, a, shown, data);
      && SameFiles(asked', st') && SameFiles(asked', st)
      && Surplus(asked, asked', st, st') ==
           (if eoa && !shown && c.wants(a) && !asked.files[f].ignore then -1 else 0)
      && Surplus(asked, asked', st, st) == (if eoa && c.wants(a) && !asked.files[f].ignore then -1 else 0)
  {
    var asked', st' := Give(c, asked, f, a, data, eoa), AddData(c, st, f, a, shown, data);
    AddDataKeepsFiles(c, asked, st, f, a, shown, data);
    SameFilesFor(asked, asked', st');
    SameFilesFor(asked, asked', st);
    assert Known(st, f);
    assert Receives(st, f) <==> !asked.files[f].ignore;
    EndsAppend(asked.obs, if eoa && c.wants(a) && !asked.files[f].ignore then [Attr(f, a, asked.files[f].attrs[a] + data, false)] else []);
    EndsAppend(st.out, if shown && c.wants(a) then [Attr(f, a, AllData(c, st.files[FindFile(st.files, f)].attrs, a, data), false)] else []);
  }

  lemma {:induction false} EndRecordsEnds(c: Caller, asked: Asked, st: ReaderState, f: u16, order: seq<u16>)
    requires SameFiles(asked, st) && f in asked.files
    requires forall k | 0 <= k < |order| :: order[k] in asked.files[f].attrs && order[k] >= ATTR_APP_START
    ensures var asked', st' := GiveEnds(c, asked, f, order), Fold(c, st, EndRecords(f, order));
      SameFiles(asked', st') && Surplus(asked, asked', st, st') == 0
    decreases |order|
  {
    if order != [] {
      var a := order[0];
      PutEnds(c, asked, st, f, a, [], true, true);
      assert EndRecords(f, order)[1..] == EndRecords(f, order[1..]);
      GiveShape(c, asked, f, a, [], true);
      EndRecordsEnds(c, Give(c, asked, f, a, [], true), AddData(c, st, f, a, true, []), f, order[1..]);
    }
  }

  lemma CloseFileEnds(c: Caller, ws: WriterState, asked: Asked, st: ReaderState, f: u16, order: seq<u16>)
    requires Matches(ws, asked) && AppAttrs(ws) && SameFiles(asked, st) && Legal(ws, CloseFile(f, order))
    ensures var op := Op.CloseFile(f, order); var asked', st' := Ask(c, ws, asked, op), Fold(c, st, Records(ws, op));
      SameFiles(asked', st') && Surplus(asked, asked', st, st') == 0
  {
    EndRecordsEnds(c, asked, st, f, order);
    GiveEndsKeys(c, asked, f, order);
    var asked1, st1 := GiveEnds(c, asked, f, order), Fold(c, st, EndRecords(f, order));
    var last := Rec(f, ATTR_EOF, true, []);
    FoldAppend(c, st, EndRecords(f, order), [last]);
    FoldOne(c, st1, last);
    hide Fold, Ends, EndRecords, GiveEnds, SameFiles, CloseFound, AppAttrs;
    EofEnds(c, asked1, st1, f);
  }

  lemma EofEnds(c: Caller, asked: Asked, st: ReaderState, f: u16)
    requires SameFiles(asked, st) && f in asked.files
    ensures var asked' := Asked(asked.files - {f}, asked.obs + if asked.files[f].ignore then [] else [Finished(f, false)]);
      var st' := CloseFound(c, st, f, false);
      SameFiles(asked', st') && Surplus(asked, asked', st, st') == 0
  {
    var eof := if asked.files[f].ignore then [] else [Finished(f, false)];
    FinishFiles(c, asked, st, f, false, asked.obs + eof);
    assert Known(st, f);
    var file := st.files[FindFile(st.files, f)];
    assert file.ignore == asked.files[f].ignore;
    assert Ends(eof) == 0;
    hide SameFiles, Ends;
    CloseAttrsEnds(c, f, file.attrs);
    EndsAppend(CloseAttrs(c, f, file.attrs), eof);
    EndsAppend(st.out, AmarSemantics.CloseFile(c, file, false));
    EndsAppend(asked.obs, eof);
  }

  lemma NewFileEnds(c: Caller, ws: WriterState, asked: Asked, st: ReaderState, name: seq<byte>, header: bool)
    requires Matches(ws, asked) && SameFiles(asked, st)
    requires Legal(ws, NewFile(name, header)) && Fresh(ws, NewFile(name, header))
    ensures var op := NewFile(name, header); var asked', st' := Ask(c, ws, asked, op), Fold(c, st, Records(ws, op));
      SameFiles(asked', st') && Surplus(asked, asked', st, st') == 0
  {
    if !Refused(ws, name) {
      NewFileFiles(c, ws, asked, st, name, header);
      NewFileFold(c, ws, asked, st, name, header);
      hide Ends, SameFiles, Fold, Records;
      EndsAppend(asked.obs, [Started(NextFilenum(ws), name)]);
      EndsAppend(st.out, [Started(NextFilenum(ws), name)]);
    }
  }

  /** A call never makes the reader report more ends than asked for; a lost end makes it fewer. */
  lemma OpEnds(c: Caller, ws: WriterState, asked: Asked, st: ReaderState, op: Op)
    requires Matches(ws, asked) && AppAttrs(ws) && SameFiles(asked, st) && Legal(ws, op) && Fresh(ws, op)
    ensures var asked', st' := Ask(c, ws, asked, op), Fold(c, st, Records(ws, op));
      SameFiles(asked', st') && Surplus(asked, asked', st, st') == if LosesEnd(c, asked, op) then -1 else 0
  {
    hide Ends, SameFiles, Fold, Give, AddData, Records, Ask, Surplus, Matches, AppAttrs;
    match op
    case NewFile(name, header) =>
      NewFileEnds(c, ws, asked, st, name, header);
    case CloseFile(f, order) =>
      CloseFileEnds(c, ws, asked, st, f, order);
    case CloseAttr(f, a) =>
      CloseAttrEnds(c, ws, asked, st, f, a);
    case _ =>
      DataEnds(c, ws, asked, st, op);
  }

  lemma CloseAttrEnds(c: Caller, ws: WriterState, asked: Asked, st: ReaderState, f: u16, a: u16)
    requires Matches(ws, asked) && AppAttrs(ws) && SameFiles(asked, st) && Legal(ws, CloseAttr(f, a))
    ensures var op := Op.CloseAttr(f, a); var asked', st' := Ask(c, ws, asked, op), Fold(c, st, Records(ws, op));
      SameFiles(asked', st') && Surplus(asked, asked', st, st') == 0
  {
    FoldNone(c, st);
    FoldOne(c, st, Rec(f, a, true, []));
    assert a >= ATTR_APP_START && a in asked.files[f].attrs;
    hide Ends, SameFiles, Fold, Give, AddData, Matches, AppAttrs;
    if !ws.files[f][a] {
      PutEnds(c, asked, st, f, a, [], true, true);
    }
  }

  lemma FoldNone(c: Caller, st: ReaderState)
    ensures Fold(c, st, []) == st
  {}

  lemma DataEnds(c: Caller, ws: WriterState, asked: Asked, st: ReaderState, op: Op)
    requires Matches(ws, asked) && AppAttrs(ws) && SameFiles(asked, st) && Legal(ws, op)
    requires op.AddBuffer? || op.AddFd? || op.NewAttr?
    ensures var asked', st' := Ask(c, ws, asked, op), Fold(c, st, Records(ws, op));
      SameFiles(asked', st') && Surplus(asked, asked', st, st') == if LosesEnd(c, asked, op) then -1 else 0
  {
    match op
    case NewAttr(f, a) => SameFilesFor(asked, Ask(c, ws, asked, op), st);
    case AddBuffer(f, a, data, eoa) =>
      hide Ends, SameFiles, Fold, Give, AddData, Chunks;
      ChunksFold(c, st, f, a, data, eoa);
      PutEnds(c, asked, st, f, a, data, eoa, eoa);
    case AddFd(f, a, data, eoa) =>
      hide Ends, SameFiles, Fold, Give, AddData, FdChunks;
      FdChunksFold(c, st, f, a, data, eoa);
      PutEnds(c, asked, st, f, a, data, eoa, eoa && |data| % MAX_RECORD_DATA_SIZE != 0);
  }

  lemma {:induction false} RunEnds(c: Caller, ws: WriterState, asked: Asked, st: ReaderState, ops: seq<Op>)
    requires Matches(ws, asked) && AppAttrs(ws) && SameFiles(asked, st) && LegalRun(ws, ops) && FreshRun(ws, ops)
    ensures var asked', st' := AskedAfter(c, ws, asked, ops), Fold(c, st, ItemsOf(ws, ops));
      && Surplus(asked, asked', st, st') <= 0
      && (!KeepsEnds(c, ws, asked, ops) ==> Surplus(asked, asked', st, st') < 0)
    decreases |ops|
  {
    hide SameFiles, Fresh, LosesEnd, Ask, After, Records, Legal, AppAttrs, Ends;
    if ops != [] {
      AskMatches(c, ws, asked, ops[0]);
      AppAttrsAfter(ws, ops[0]);
      OpEnds(c, ws, asked, st, ops[0]);
      var items := Records(ws, ops[0]);
      FoldAppend(c, st, items, ItemsOf(After(ws, ops[0]), ops[1..]));
      RunEnds(c, After(ws, ops[0]), Ask(c, ws, asked, ops[0]), Fold(c, st, items), ops[1..]);
    }
  }

  // ---------- file numbers ----------

  /** The files that are made: calls for new files that are not refused. */
  function Accepted(ws: WriterState, ops: seq<Op>): nat
    requires LegalRun(ws, ops)
    decreases |ops|
  {
    if ops == [] then 0
    else (if ops[0].NewFile? && !Refused(ws, ops[0].name) then 1 else 0) + Accepted(After(ws, ops[0]), ops[1..])
  }

  predicate NumbersUsed(ws: WriterState) {
    forall f | f in ws.files :: f <= ws.maxFilenum
  }

  lemma NumbersUsedAfter(ws: WriterState, op: Op)
    requires Legal(ws, op) && NumbersUsed(ws) && ws.maxFilenum < MAGIC_FILENUM
    ensures Fresh(ws, op) <==> !(op.NewFile? && !Refused(ws, op.name) && ws.maxFilenum + 1 == MAGIC_FILENUM)
    ensures NumbersUsed(After(ws, op))
    ensures After(ws, op).maxFilenum == ws.maxFilenum + if op.NewFile? && !Refused(ws, op.name) then 1 else 0
  {}

  /** The choice of file numbers does not look past the next number: each new file's number is unused,
      and not the one that looks like a header, if and only if no more than 0x414c files are made. */
  lemma {:induction false} FreshNumbers(ws: WriterState, ops: seq<Op>)
    requires LegalRun(ws, ops) && NumbersUsed(ws) && ws.maxFilenum < MAGIC_FILENUM
    ensures FreshRun(ws, ops) <==> Accepted(ws, ops) + ws.maxFilenum < MAGIC_FILENUM
    decreases |ops|
  {
    if ops != [] {
      NumbersUsedAfter(ws, ops[0]);
      hide NumbersUsed, Fresh, After, Legal, Refused;
      if Fresh(ws, ops[0]) {
        FreshNumbers(After(ws, ops[0]), ops[1..]);
      }
    }
  }

  function Headers(header: bool): seq<Item> {
    if header then [Header] else []
  }

  /** Where a run makes a file with the number that looks like a header, and what it has written by then. */
  lemma {:induction false} MagicCall(ws: WriterState, ops: seq<Op>) returns (n: nat, rest: seq<Item>)
    requires LegalRun(ws, ops) && NumbersUsed(ws) && ws.maxFilenum < MAGIC_FILENUM && !FreshRun(ws, ops)
    ensures n < |ops| && ops[n].NewFile? && LegalRun(ws, ops[..n]) && FreshRun(ws, ops[..n])
    ensures |ops[n].name| <= MAX_RECORD_DATA_SIZE
    ensures ItemsOf(ws, ops) ==
      ItemsOf(ws, ops[..n]) + Headers(ops[n].header) + [Rec(MAGIC_FILENUM, ATTR_FILENAME, true, ops[n].name)] + rest
    ensures Accepted(ws, ops[..n]) + ws.maxFilenum + 1 == MAGIC_FILENUM
    decreases |ops|
  {
    var ws1 := After(ws, ops[0]);
    NumbersUsedAfter(ws, ops[0]);
    if Fresh(ws, ops[0]) {
      hide NumbersUsed, Fresh, After, Legal, Refused, Records;
      n, rest := MagicCall(ws1, ops[1..]);
      var front := ops[..n + 1];
      assert front[0] == ops[0] && front[1..] == ops[1..][..n];
      Regrouped(Records(ws, ops[0]), ItemsOf(ws1, ops[1..][..n]), Headers(ops[n + 1].header),
                [Rec(MAGIC_FILENUM, ATTR_FILENAME, true, ops[n + 1].name)], rest);
      n := n + 1;
    } else {
      n, rest := 0, ItemsOf(ws1, ops[1..]);
      assert ops[..0] == [];
    }
  }

  lemma Regrouped<T>(r: seq<T>, a: seq<T>, b: seq<T>, c: seq<T>, d: seq<T>)
    ensures r + (a + b + c + d) == r + a + b + c + d
  {}

  lemma {:induction false} ChunksFit(f: u16, a: u16, data: seq<byte>, eoa: bool)
    ensures AllFit(Chunks(f, a, data, eoa)) && AllFit(FdChunks(f, a, data, eoa))
    decreases |data|
  {
    if |data| >= MAX_RECORD_DATA_SIZE {
      ChunksFit(f, a, data[MAX_RECORD_DATA_SIZE..], eoa);
    }
  }

  lemma {:induction false} EndRecordsFit(f: u16, order: seq<u16>)
    ensures AllFit(EndRecords(f, order))
  {
    if order != [] {
      EndRecordsFit(f, order[1..]);
    }
  }

  lemma RecordsFit(ws: WriterState, op: Op)
    ensures AllFit(Records(ws, op))
  {
    match op
    case AddBuffer(f, a, data, eoa) => ChunksFit(f, a, data, eoa);
    case AddFd(f, a, data, eoa) => ChunksFit(f, a, data, eoa);
    case CloseFile(f, order) => EndRecordsFit(f, order);
    case _ =>
  }

  /** Whatever the numbers, every record is small enough. */
  lemma {:induction false} RunFits(ws: WriterState, ops: seq<Op>)
    requires LegalRun(ws, ops)
    ensures AllFit(ItemsOf(ws, ops))
    decreases |ops|
  {
    hide Legal, Records, After, Fits;
    if ops != [] {
      RecordsFit(ws, ops[0]);
      RunFits(After(ws, ops[0]), ops[1..]);
    }
  }

  // ---------- the theorem ----------

  const FIRST := [Header]

  /** Everything an archive holds after a run of calls: the items of a log. */
  function ArchiveItems(ops: seq<Op>): seq<Item>
    requires LegalRun(NO_FILES, ops)
  {
    FIRST + ItemsOf(NO_FILES, ops)
  }

  /** After any run with fresh file numbers, reading reports exactly what was asked for if and
      only if every call that ends a received attribute writes a record that says so. */
  lemma ReadsAsAsked(c: Caller, ops: seq<Op>)
    requires LegalRun(NO_FILES, ops) && FreshRun(NO_FILES, ops)
    ensures Fold(c, INITIAL, ArchiveItems(ops)).out == AskedAfter(c, NO_FILES, NOTHING, ops).obs
      <==> KeepsEnds(c, NO_FILES, NOTHING, ops)
  {
    FoldAppend(c, INITIAL, FIRST, ItemsOf(NO_FILES, ops));
    FoldOne(c, INITIAL, Header);
    RunEnds(c, NO_FILES, NOTHING, INITIAL, ops);
    if KeepsEnds(c, NO_FILES, NOTHING, ops) {
      RunRead(c, NO_FILES, NOTHING, INITIAL, ops);
    }
  }
}

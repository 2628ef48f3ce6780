/** What reading an archive means: a reference reader over whole items, with no buffers,
    no fragments and no cached pointers. */
module AmarSemantics {
  import opened AmarFormat
  import opened Text

  /** What a caller learns once the fragments of each attribute are joined. */
  datatype Obs =
    | Started(filenum: u16, name: seq<byte>)
    | Attr(filenum: u16, attrid: u16, data: seq<byte>, truncated: bool)
    | Finished(filenum: u16, truncated: bool)

  /** The caller's choices: which attributes have a callback, and which files it ignores. */
  datatype Caller = Caller(wants: u16 -> bool, ignores: (u16, seq<byte>) -> bool)

  datatype AttrState = AttrState(attrid: u16, data: seq<byte>)
  datatype FileState = FileState(filenum: u16, ignore: bool, attrs: seq<AttrState>)
  datatype ReaderState = ReaderState(files: seq<FileState>, out: seq<Obs>)

  const INITIAL := ReaderState([], [])

  function FindFile(files: seq<FileState>, f: u16): (i: nat)
    ensures i <= |files|
    ensures i < |files| ==> files[i].filenum == f
    ensures forall k | 0 <= k < i :: files[k].filenum != f
  {
    if files == [] || files[0].filenum == f then 0 else 1 + FindFile(files[1..], f)
  }

  function FindAttr(attrs: seq<AttrState>, a: u16): (i: nat)
    ensures i <= |attrs|
    ensures i < |attrs| ==> attrs[i].attrid == a
    ensures forall k | 0 <= k < i :: attrs[k].attrid != a
  {
    if attrs == [] || attrs[0].attrid == a then 0 else 1 + FindAttr(attrs[1..], a)
  }

  /** The data held for an attribute. */
  function Held(attrs: seq<AttrState>, a: u16): Option<seq<byte>> {
    var j := FindAttr(attrs, a);
    if j < |attrs| then Some(attrs[j].data) else None
  }

  predicate Known(st: ReaderState, f: u16) {
    FindFile(st.files, f) < |st.files|
  }

  /** An open file whose attributes are delivered. */
  predicate Receives(st: ReaderState, f: u16) {
    Known(st, f) && !st.files[FindFile(st.files, f)].ignore
  }

  function Without<T>(s: seq<T>, i: nat): (r: seq<T>)
    requires i <= |s|
  {
    if i == |s| then s else s[..i] + s[i + 1..]
  }

  // ---------- closing files ----------

  /** Attributes still open when their file ends are reported truncated. */
  function CloseAttrs(c: Caller, f: u16, attrs: seq<AttrState>): seq<Obs> {
    if attrs == [] then []
    else
      (if c.wants(attrs[0].attrid) then [Attr(f, attrs[0].attrid, attrs[0].data, true)] else [])
      + CloseAttrs(c, f, attrs[1..])
  }

  function CloseFile(c: Caller, file: FileState, truncated: bool): seq<Obs> {
    CloseAttrs(c, file.filenum, file.attrs) + if file.ignore then [] else [Finished(file.filenum, truncated)]
  }

  function CloseAll(c: Caller, files: seq<FileState>): seq<Obs> {
    if files == [] then [] else CloseFile(c, files[0], true) + CloseAll(c, files[1..])
  }

  function CloseFound(c: Caller, st: ReaderState, f: u16, truncated: bool): ReaderState {
    var i := FindFile(st.files, f);
    if i == |st.files| then st
    else ReaderState(Without(st.files, i), st.out + CloseFile(c, st.files[i], truncated))
  }

  // ---------- one item ----------

  function SetAttrs(files: seq<FileState>, i: nat, attrs: seq<AttrState>): seq<FileState>
    requires i < |files|
  {
    files[i := files[i].(attrs := attrs)]
  }

  /** The attribute's data so far with more data; kept only if the caller wants it. */
  function AllData(c: Caller, attrs: seq<AttrState>, a: u16, data: seq<byte>): seq<byte> {
    var j := FindAttr(attrs, a);
    if c.wants(a) then (if j < |attrs| then attrs[j].data else []) + data else []
  }

  function Grow(c: Caller, attrs: seq<AttrState>, a: u16, data: seq<byte>): seq<AttrState> {
    var j := FindAttr(attrs, a);
    var x := AttrState(a, AllData(c, attrs, a, data));
    if j < |attrs| then attrs[j := x] else [x] + attrs
  }

  function AddData(c: Caller, st: ReaderState, f: u16, a: u16, eoa: bool, data: seq<byte>): ReaderState {
    if !Receives(st, f) then st
    else
      var i := FindFile(st.files, f);
      var attrs := st.files[i].attrs;
      if eoa then
        ReaderState(
          SetAttrs(st.files, i, Without(attrs, FindAttr(attrs, a))),
          st.out + if c.wants(a) then [Attr(f, a, AllData(c, attrs, a, data), false)] else [])
      else
        ReaderState(SetAttrs(st.files, i, Grow(c, attrs, a, data)), st.out)
  }

  /** Data that arrives in two parts is the same as data that arrives at once. */
  lemma AddDataInParts(c: Caller, st: ReaderState, f: u16, a: u16, eoa: bool, d: seq<byte>, e: seq<byte>)
    requires Receives(st, f)
    ensures AddData(c, AddData(c, st, f, a, false, d), f, a, eoa, e) == AddData(c, st, f, a, eoa, d + e)
  {
    var st1 := AddData(c, st, f, a, false, d);
    var i := FindFile(st.files, f);
    FindFileIs(st1.files, f, i);
    AttrInParts(c, st.files[i].attrs, a, d, e);
    assert SetAttrs(st1.files, i, st.files[i].attrs) == SetAttrs(st.files, i, st.files[i].attrs);
  }

  lemma AttrInParts(c: Caller, attrs: seq<AttrState>, a: u16, d: seq<byte>, e: seq<byte>)
    ensures var attrs1 := Grow(c, attrs, a, d);
      && AllData(c, attrs1, a, e) == AllData(c, attrs, a, d + e)
      && Grow(c, attrs1, a, e) == Grow(c, attrs, a, d + e)
      && Without(attrs1, FindAttr(attrs1, a)) == Without(attrs, FindAttr(attrs, a))
  {
    var attrs1 := Grow(c, attrs, a, d);
    var j := FindAttr(attrs, a);
    var had := if j < |attrs| then attrs[j].data else [];
    FindAttrIs(attrs1, a, if j < |attrs| then j else 0);
    assert had + d + e == had + (d + e);
  }

  lemma FindFileIs(files: seq<FileState>, f: u16, i: nat)
    requires i <= |files|
    requires i < |files| ==> files[i].filenum == f
    requires forall k | 0 <= k < i :: files[k].filenum != f
    ensures FindFile(files, f) == i
  {}

  lemma FindAttrIs(attrs: seq<AttrState>, a: u16, j: nat)
    requires j <= |attrs|
    requires j < |attrs| ==> attrs[j].attrid == a
    requires forall k | 0 <= k < j :: attrs[k].attrid != a
    ensures FindAttr(attrs, a) == j
  {}

  function Start(c: Caller, st: ReaderState, f: u16, name: seq<byte>): ReaderState {
    ReaderState([FileState(f, c.ignores(f, name), [])] + st.files, st.out + [Started(f, name)])
  }

  function Step(c: Caller, st: ReaderState, item: Item): ReaderState {
    match item
    case Header => st
    case Rec(f, a, eoa, data) =>
      if a == ATTR_EOF then CloseFound(c, st, f, false)
      else if a == ATTR_FILENAME then Start(c, CloseFound(c, st, f, true), f, data)
      else AddData(c, st, f, a, eoa, data)
  }

  function Fold(c: Caller, st: ReaderState, items: seq<Item>): ReaderState
    decreases |items|
  {
    if items == [] then st else Fold(c, Step(c, st, items[0]), items[1..])
  }

  /** What one item makes the reader report. */
  function Emitted(c: Caller, st: ReaderState, item: Item): seq<Obs> {
    match item
    case Header => []
    case Rec(f, a, eoa, data) =>
      if a == ATTR_EOF then ClosingOf(c, st, f, false)
      else if a == ATTR_FILENAME then ClosingOf(c, st, f, true) + [Started(f, data)]
      else if Receives(st, f) && eoa && c.wants(a) then
        [Attr(f, a, AllData(c, st.files[FindFile(st.files, f)].attrs, a, data), false)]
      else []
  }

  function ClosingOf(c: Caller, st: ReaderState, f: u16, truncated: bool): seq<Obs> {
    if Known(st, f) then CloseFile(c, st.files[FindFile(st.files, f)], truncated) else []
  }

  lemma StepEmits(c: Caller, st: ReaderState, item: Item)
    ensures Step(c, st, item).out == st.out + Emitted(c, st, item)
  {}

  lemma {:induction false} FoldAppend(c: Caller, st: ReaderState, xs: seq<Item>, ys: seq<Item>)
    ensures Fold(c, st, xs + ys) == Fold(c, Fold(c, st, xs), ys)
    decreases |xs|
  {
    hide Step;
    if xs == [] {
      assert xs + ys == ys;
    } else {
      FoldAppend(c, Step(c, st, xs[0]), xs[1..], ys);
      assert (xs + ys)[1..] == xs[1..] + ys;
    }
  }

  // ---------- the attribute that the reader remembers between records ----------

  /** The reader keeps a pointer to the last attribute it used, and takes it for the attribute
      of the next record when only the attribute number agrees. */
  datatype Cache = NoCache | Cached(owner: u16, attrid: u16)

  /** The remembered attribute has the record's number but belongs to another file. */
  predicate Clash(st: ReaderState, cache: Cache, f: u16, a: u16) {
    a >= ATTR_APP_START && Receives(st, f) && cache.Cached? && cache.attrid == a && cache.owner != f
  }

  function NextCache(st: ReaderState, cache: Cache, item: Item): Cache {
    match item
    case Header => cache
    case Rec(f, a, eoa, data) =>
      if a == ATTR_EOF || a == ATTR_FILENAME then (if Known(st, f) then NoCache else cache)
      else if !Receives(st, f) then cache
      else if eoa then NoCache
      else if Clash(st, cache, f, a) then cache
      else Cached(f, a)
  }

  predicate ItemClashes(st: ReaderState, cache: Cache, item: Item) {
    item.Rec? && Clash(st, cache, item.filenum, item.attrid)
  }

  predicate Clashes(c: Caller, st: ReaderState, cache: Cache, items: seq<Item>)
    decreases |items|
  {
    items != [] &&
    (ItemClashes(st, cache, items[0]) || Clashes(c, Step(c, st, items[0]), NextCache(st, cache, items[0]), items[1..]))
  }

  function FoldCache(c: Caller, st: ReaderState, cache: Cache, items: seq<Item>): Cache
    decreases |items|
  {
    if items == [] then cache
    else FoldCache(c, Step(c, st, items[0]), NextCache(st, cache, items[0]), items[1..])
  }

  // ---------- a whole read ----------

  datatype End = Ended(stop: Stop) | NoHeader
  datatype Final = Final(st: ReaderState, end: End)

  /** Data cut off by the end of the archive matters only to a caller that wants it: otherwise
      it is skipped like a whole record. */
  function Settle(c: Caller, st: ReaderState, stop: Stop): Final {
    if stop.Partial? && !(Receives(st, stop.filenum) && c.wants(stop.attrid))
    then Final(AddData(c, st, stop.filenum, stop.attrid, stop.eoa, stop.data), Ended(Eof))
    else Final(st, Ended(stop))
  }

  /** Reading must begin at an archive header. */
  predicate Begins(b: seq<byte>) {
    RECORD_SIZE <= |b| ==> DecodeRecordHeader(b).filenum == MAGIC_FILENUM
  }

  function ReadAll(c: Caller, b: seq<byte>): Final {
    if !Begins(b) then Final(INITIAL, NoHeader)
    else Settle(c, Fold(c, INITIAL, Parse(b).items), Parse(b).stop)
  }

  // ---------- a condition that rules out clashes ----------

  predicate HasAttr(file: FileState, a: u16) {
    exists j | 0 <= j < |file.attrs| :: file.attrs[j].attrid == a
  }

  /** While an attribute is unfinished in one file, no other file has a record of the same number. */
  predicate Overlaps(st: ReaderState, f: u16, a: u16) {
    exists i | 0 <= i < |st.files| :: st.files[i].filenum != f && HasAttr(st.files[i], a)
  }

  predicate NeverOverlaps(c: Caller, st: ReaderState, items: seq<Item>)
    decreases |items|
  {
    items != [] ==>
      && !(items[0].Rec? && items[0].attrid >= ATTR_APP_START && Overlaps(st, items[0].filenum, items[0].attrid))
      && NeverOverlaps(c, Step(c, st, items[0]), items[1..])
  }

  predicate CacheValid(st: ReaderState, cache: Cache) {
    cache.Cached? ==>
      exists i | 0 <= i < |st.files| :: st.files[i].filenum == cache.owner && HasAttr(st.files[i], cache.attrid)
  }

  lemma ClashOverlaps(st: ReaderState, cache: Cache, f: u16, a: u16)
    requires CacheValid(st, cache) && Clash(st, cache, f, a)
    ensures Overlaps(st, f, a)
  {}

  lemma WithoutKeeps<T>(s: seq<T>, i: nat, k: nat)
    requires i < |s| && k < |s| && k != i
    ensures var k' := if k < i then k else k - 1; k' < |Without(s, i)| && Without(s, i)[k'] == s[k]
  {}

  lemma NextCacheValid(c: Caller, st: ReaderState, cache: Cache, item: Item)
    requires CacheValid(st, cache)
    requires !ItemClashes(st, cache, item)
    requires item.Rec? ==> item.attrid == ATTR_EOF || item.attrid == ATTR_FILENAME || item.attrid >= ATTR_APP_START
    ensures CacheValid(Step(c, st, item), NextCache(st, cache, item))
  {
    var st', cache' := Step(c, st, item), NextCache(st, cache, item);
    if item.Rec? && cache'.Cached? {
      var f, a := item.filenum, item.attrid;
      if a >= ATTR_APP_START && Receives(st, f) {
        var i := FindFile(st.files, f);
        var attrs := st'.files[i].attrs;
        assert attrs[if FindAttr(st.files[i].attrs, a) < |st.files[i].attrs| then FindAttr(st.files[i].attrs, a) else 0].attrid == a;
        assert HasAttr(st'.files[i], a);
      } else {
        var i :| 0 <= i < |st.files| && st.files[i].filenum == cache.owner && HasAttr(st.files[i], cache.attrid);
        if a == ATTR_FILENAME {
          assert st'.files[i + 1] == st.files[i];
        } else {
          assert st'.files[i] == st.files[i];
        }
      }
    }
  }

  predicate KnownAttrids(items: seq<Item>) {
    forall k | 0 <= k < |items| && items[k].Rec? ::
      items[k].attrid == ATTR_EOF || items[k].attrid == ATTR_FILENAME || items[k].attrid >= ATTR_APP_START
  }

  /** Archives whose attributes never overlap never clash. */
  lemma {:induction false} NoOverlapNoClash(c: Caller, st: ReaderState, cache: Cache, items: seq<Item>)
    requires KnownAttrids(items)
    requires CacheValid(st, cache)
    requires NeverOverlaps(c, st, items)
    ensures !Clashes(c, st, cache, items)
    ensures CacheValid(Fold(c, st, items), FoldCache(c, st, cache, items))
    decreases |items|
  {
    hide Step, NextCache, Clash;
    if items != [] {
      if ItemClashes(st, cache, items[0]) {
        assert items[0].attrid >= ATTR_APP_START by { ClashIsApp(st, cache, items[0].filenum, items[0].attrid); }
        ClashOverlaps(st, cache, items[0].filenum, items[0].attrid);
      }
      NextCacheValid(c, st, cache, items[0]);
      NoOverlapNoClash(c, Step(c, st, items[0]), NextCache(st, cache, items[0]), items[1..]);
    }
  }

  lemma ClashIsApp(st: ReaderState, cache: Cache, f: u16, a: u16)
    requires Clash(st, cache, f, a)
    ensures a >= ATTR_APP_START
  {}
}

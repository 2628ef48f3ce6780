/** The archives that are read right whatever their data, the minimum sizes and the buffers. */
module AmarShapes {
  import opened AmarFormat
  import opened Text
  import opened AmarSemantics
  import opened AmarMachine
  import opened AmarDelivery
  import opened AmarRefinement
  import opened AmarReading
  import opened AmarSizes
  import opened AmarTruncation
  import opened AmarConfusion
  import opened AmarMisreading

  /** The same records, with other data of the same size in the attributes. */
  predicate SameItem(x: Item, y: Item) {
    match x
    case Header => y.Header?
    case Rec(f, a, eoa, data) =>
      && y.Rec? && y.filenum == f && y.attrid == a && y.eoa == eoa && |y.data| == |data|
      && (a < ATTR_APP_START ==> y.data == data)
  }

  predicate SameShape(xs: seq<Item>, ys: seq<Item>) {
    |xs| == |ys| && forall i | 0 <= i < |xs| :: SameItem(xs[i], ys[i])
  }

  /** Archives in which no record ends an attribute it is mistaken for, none that is mistaken has data
      that is wanted, and no file is closed with an attribute stranded. */
  predicate Safe(c: Caller, items: seq<Item>) {
    !FreesIn(c, UNTRACKED, items) && !FillsIn(c, UNTRACKED, items) && !StrandsIn(c, UNTRACKED, items)
  }

  lemma {:induction false} ShapeTracks(c: Caller, t: Track, x: Item, y: Item)
    requires SameItem(x, y)
    ensures TrackItem(c, t, x) == TrackItem(c, t, y) && (Confuses(t, x) <==> Confuses(t, y))
    ensures ClosesFile(t, x) <==> ClosesFile(t, y)
  {}

  lemma {:induction false} ShapeDecides(c: Caller, t: Track, xs: seq<Item>, ys: seq<Item>)
    requires SameShape(xs, ys)
    ensures (FreesIn(c, t, xs) <==> FreesIn(c, t, ys)) && (FillsIn(c, t, xs) <==> FillsIn(c, t, ys))
    ensures StrandsIn(c, t, xs) <==> StrandsIn(c, t, ys)
    decreases |xs|
  {
    hide TrackItem, Confuses, Stranded, ClosesFile;
    if xs != [] {
      ShapeTracks(c, t, xs[0], ys[0]);
      assert SameItem(xs[0], ys[0]);
      ShapeDecides(c, TrackItem(c, t, xs[0]), xs[1..], ys[1..]);
      if Confuses(t, xs[0]) { ConfusesRec(t, xs[0]); }
    }
  }

  lemma {:induction false} ConfusesRec(t: Track, item: Item)
    requires Confuses(t, item)
    ensures item.Rec?
  {}

  lemma {:induction false} ShapeWellFormed(xs: seq<Item>, ys: seq<Item>)
    requires SameShape(xs, ys) && AllWellFormed(xs)
    ensures AllWellFormed(ys) && (xs != [] && xs[0] == Header ==> ys != [] && ys[0] == Header)
  {
    forall i | 0 <= i < |ys| ensures WellFormed(ys[i]) {
      assert SameItem(xs[i], ys[i]) && WellFormed(xs[i]);
    }
  }

  lemma {:induction false} NothingFilled(c: Caller, hs: seq<Handling>, t: Track, items: seq<Item>)
    requires Terminated(hs) && !FreesIn(c, t, items) && !FillsIn(c, t, items)
    ensures HarmlessIn(c, hs, t, items)
    decreases |items|
  {
    hide TrackItem, HandlingOf, Confuses;
    if items != [] {
      NothingFilled(c, hs, TrackItem(c, t, items[0]), items[1..]);
      if Confuses(t, items[0]) { ConfusesRec(t, items[0]); }
    }
  }

  /** The archive is read without misusing memory, and what is told about each file and attribute is
      what the archive says, for this handling array and these cuts. */
  ghost predicate ReadsRight(c: Caller, hs: seq<Handling>, items: seq<Item>, cuts: Cuts)
    requires Terminated(hs) && AllFit(items)
  {
    var x := ReadBytes(hs, c.ignores, Encode(items), cuts);
    x.result == Success && SameTold(Join(x.events).out, Report(c, Encode(items)))
  }

  /** ... for all of them, and whatever data of the same size the attributes have. */
  ghost predicate AlwaysRight(c: Caller, items: seq<Item>)
    requires AllWellFormed(items)
  {
    forall hs, ys, cuts | Terminated(hs) && Serves(c, hs, c.ignores) && SameShape(items, ys) && AllFit(ys) ::
      ReadsRight(c, hs, ys, cuts)
  }

  lemma {:induction false} SafeReads(c: Caller, hs: seq<Handling>, items: seq<Item>, ys: seq<Item>, cuts: Cuts)
    requires AllWellFormed(items) && items != [] && items[0] == Header && Safe(c, items)
    requires Terminated(hs) && Serves(c, hs, c.ignores) && SameShape(items, ys) && AllFit(ys)
    ensures ReadsRight(c, hs, ys, cuts)
  {
    ShapeWellFormed(items, ys);
    ShapeDecides(c, UNTRACKED, items, ys);
    NothingFilled(c, hs, UNTRACKED, ys);
    RightExactly(c, hs, c.ignores, ys, cuts);
  }

  // ---------- a handling array for any caller ----------

  /** A handling array with an entry for every attribute number, all with the same minimum size. */
  function Uniform(c: Caller, min: nat): (hs: seq<Handling>)
    ensures |hs| == 65536
    ensures forall i | 0 <= i < 65536 :: hs[i] == Handling((i + 1) % 65536, min, c.wants((i + 1) % 65536))
  {
    seq(65536, i requires 0 <= i < 65536 => Handling((i + 1) % 65536, min, c.wants((i + 1) % 65536)))
  }

  /** The first entry that is the attribute's, or is the catch-all. */
  lemma {:induction false} FirstEntry(hs: seq<Handling>, i: nat, a: u16)
    requires Terminated(hs) && i < |hs| && (hs[i].attrid == a || hs[i].attrid == 0)
    requires forall j | 0 <= j < i :: hs[j].attrid != a && hs[j].attrid != 0
    ensures HandlingOf(hs, a) == hs[i]
    decreases i
  {
    if i > 0 {
      assert hs[1..][i - 1] == hs[i];
      FirstEntry(hs[1..], i - 1, a);
    }
  }

  lemma {:induction false} UniformServes(c: Caller, min: nat)
    ensures Terminated(Uniform(c, min)) && Serves(c, Uniform(c, min), c.ignores)
    ensures forall a: u16 :: HandlingOf(Uniform(c, min), a).minSize == min
  {
    hide Uniform, HandlingOf;
    var hs := Uniform(c, min);
    assert hs[65535].attrid == 0;
    forall a: u16 ensures HandlingOf(hs, a) == Handling(a, min, c.wants(a)) {
      var i := if a == 0 then 65535 else a - 1;
      assert hs[i] == Handling(a, min, c.wants(a));
      FirstEntry(hs, i, a);
    }
  }

  // ---------- data that shows where it went ----------

  /** The attributes' data replaced: ones in record k, zeros in all others. */
  function Marked(items: seq<Item>, k: nat): (ys: seq<Item>)
    ensures |ys| == |items|
    ensures forall i | 0 <= i < |items| :: ys[i] == MarkItem(items[i], i == k)
  {
    seq(|items|, i requires 0 <= i < |items| => MarkItem(items[i], i == k))
  }

  function Filled(n: nat, one: bool): (s: seq<byte>)
    ensures |s| == n && (1 in s <==> one && n > 0)
  {
    if n == 0 then [] else [if one then 1 else 0] + Filled(n - 1, one)
  }

  function MarkItem(item: Item, one: bool): Item {
    if item.Rec? && item.attrid >= ATTR_APP_START then item.(data := Filled(|item.data|, one)) else item
  }

  lemma {:induction false} MarkedShape(items: seq<Item>, k: nat)
    ensures SameShape(items, Marked(items, k))
  {
    hide Filled;
  }

  /** The first record with wanted data that is taken for another file's attribute. */
  lemma {:induction false} FirstFill(c: Caller, t: Track, items: seq<Item>) returns (k: nat)
    requires FillsIn(c, t, items)
    ensures k < |items| && items[k].Rec? && items[k].attrid >= ATTR_APP_START && items[k].data != [] && c.wants(items[k].attrid)
    ensures Confuses(TrackAll(c, t, items[..k]), items[k])
    decreases |items|
  {
    if Confuses(t, items[0]) && c.wants(items[0].attrid) && items[0].data != [] {
      k := 0;
      assert items[..0] == [];
    } else {
      var t1 := TrackItem(c, t, items[0]);
      hide TrackItem, Confuses;
      k := FirstFill(c, t1, items[1..]);
      assert items[..k + 1][1..] == items[1..][..k];
      k := k + 1;
    }
  }

  // ---------- the archive's own account of the marked data ----------

  /** Nothing of a file other than f has a one in it. */
  predicate PureObs(out: seq<Obs>, f: u16) {
    forall i | 0 <= i < |out| && out[i].Attr? && out[i].filenum != f :: 1 !in out[i].data
  }

  predicate PureAttrs(attrs: seq<AttrState>) {
    forall j | 0 <= j < |attrs| :: 1 !in attrs[j].data
  }

  predicate Pure(st: ReaderState, f: u16) {
    PureObs(st.out, f) && forall i | 0 <= i < |st.files| && st.files[i].filenum != f :: PureAttrs(st.files[i].attrs)
  }

  lemma {:induction false} CloseAttrsPure(c: Caller, g: u16, attrs: seq<AttrState>, f: u16)
    requires g == f || PureAttrs(attrs)
    ensures PureObs(CloseAttrs(c, g, attrs), f)
    decreases |attrs|
  {
    if attrs != [] {
      CloseAttrsPure(c, g, attrs[1..], f);
    }
  }

  lemma {:induction false} CloseFilePure(c: Caller, file: FileState, truncated: bool, f: u16)
    requires file.filenum == f || PureAttrs(file.attrs)
    ensures PureObs(CloseFile(c, file, truncated), f)
  {
    CloseAttrsPure(c, file.filenum, file.attrs, f);
    hide CloseAttrs;
  }

  lemma {:induction false} ClosePure(c: Caller, st: ReaderState, g: u16, truncated: bool, f: u16)
    requires Pure(st, f)
    ensures Pure(CloseFound(c, st, g, truncated), f)
  {
    var i := FindFile(st.files, g);
    if i < |st.files| {
      CloseFilePure(c, st.files[i], truncated, f);
      hide CloseFile, PureAttrs;
    }
  }

  lemma {:induction false} DataPure(c: Caller, st: ReaderState, g: u16, a: u16, eoa: bool, data: seq<byte>, f: u16)
    requires Pure(st, f) && (g != f ==> 1 !in data)
    ensures Pure(AddData(c, st, g, a, eoa, data), f)
  {
    if Receives(st, g) && g != f {
      AttrPure(c, st.files[FindFile(st.files, g)].attrs, a, data);
      hide Grow, Without, AllData;
    }
  }

  lemma {:induction false} AttrPure(c: Caller, attrs: seq<AttrState>, a: u16, data: seq<byte>)
    requires PureAttrs(attrs) && 1 !in data
    ensures 1 !in AllData(c, attrs, a, data) && PureAttrs(Grow(c, attrs, a, data)) && PureAttrs(Without(attrs, FindAttr(attrs, a)))
  {}

  lemma {:induction false} StepPure(c: Caller, st: ReaderState, item: Item, f: u16)
    requires Pure(st, f)
    requires item.Rec? && item.attrid != ATTR_FILENAME && item.attrid != ATTR_EOF && item.filenum != f ==> 1 !in item.data
    ensures Pure(Step(c, st, item), f)
  {
    match item
    case Header =>
    case Rec(g, a, eoa, data) =>
      if a == ATTR_EOF {
        ClosePure(c, st, g, false, f);
      } else if a == ATTR_FILENAME {
        ClosePure(c, st, g, true, f);
        hide CloseFound;
        assert Start(c, CloseFound(c, st, g, true), g, data).files[1..] == CloseFound(c, st, g, true).files;
      } else {
        DataPure(c, st, g, a, eoa, data, f);
      }
  }

  lemma {:induction false} FoldPure(c: Caller, st: ReaderState, items: seq<Item>, f: u16)
    requires Pure(st, f)
    requires forall i | 0 <= i < |items| && items[i].Rec? && items[i].attrid >= ATTR_APP_START && items[i].filenum != f :: 1 !in items[i].data
    requires KnownAttrids(items)
    ensures Pure(Fold(c, st, items), f)
    decreases |items|
  {
    hide Pure, Step;
    if items != [] {
      FirstKnown(items);
      assert [items[0]][0] == items[0];
      StepPure(c, st, items[0], f);
      FoldPure(c, Step(c, st, items[0]), items[1..], f);
    }
  }

  lemma {:induction false} AllPure(c: Caller, files: seq<FileState>, f: u16)
    requires forall i | 0 <= i < |files| && files[i].filenum != f :: PureAttrs(files[i].attrs)
    ensures PureObs(CloseAll(c, files), f)
    decreases |files|
  {
    if files != [] {
      CloseFilePure(c, files[0], true, f);
      AllPure(c, files[1..], f);
      hide CloseFile, PureAttrs;
    }
  }

  // ---------- the reader's account of it ----------

  /** A one is in the buffer of a wanted attribute of a file other than f. */
  predicate KeptAt(m: Machine, p: Place, f: u16) {
    && At(m, p) && m.files[p.k].filenum != f
    && AttrAt(m, p).handling.callback && !AttrAt(m, p).wroteEoa && 1 in AttrAt(m, p).buf
  }

  /** ... or was told as the end of such an attribute. */
  predicate Tells(e: Event, f: u16) {
    e.FragmentCall? && e.eoa && e.filenum != f && 1 in e.data
  }

  ghost predicate Astray(m: Machine, f: u16) {
    (exists p :: KeptAt(m, p, f)) || (exists i | 0 <= i < |m.events| :: Tells(m.events[i], f))
  }

  lemma {:induction false} ToldStays(m: Machine, m1: Machine, f: u16, i: nat)
    requires i < |m.events| && Tells(m.events[i], f) && m.events <= m1.events
    ensures Astray(m1, f)
  {
    assert Tells(m1.events[i], f);
  }

  lemma {:induction false} TellsNow(m: Machine, more: seq<Event>, i: nat, f: u16, m1: Machine)
    requires i < |more| && Tells(more[i], f) && m1.events == m.events + more
    ensures Astray(m1, f)
  {
    assert Tells(m1.events[|m.events| + i], f);
  }

  /** No buffer holds more than s bytes, and no minimum size is less than the bound. */
  ghost predicate Below(hs: seq<Handling>, m: Machine, s: nat, bound: nat)
    requires Terminated(hs)
  {
    && (forall k, j | 0 <= k < |m.files| && 0 <= j < |m.files[k].attrs| :: |m.files[k].attrs[j].buf| <= s)
    && forall a: u16 :: HandlingOf(hs, a).minSize == bound
  }

  lemma {:induction false} EndsTell(f0: u16, attrs: seq<AttrBuf>, j: nat, f: u16) returns (i: nat)
    requires j < |attrs| && f0 != f && attrs[j].handling.callback && !attrs[j].wroteEoa && 1 in attrs[j].buf
    ensures i < |EndCalls(f0, attrs)| && Tells(EndCalls(f0, attrs)[i], f)
    decreases |attrs|
  {
    if j == 0 {
      i := 0;
    } else {
      i := EndsTell(f0, attrs[1..], j - 1, f);
      i := i + |EndCall(f0, attrs[0], true)|;
    }
  }

  lemma {:induction false} FinishAstray(m: Machine, i: nat, truncated: bool, f: u16)
    requires i < |m.files| && Astray(m, f)
    ensures Astray(FileFinished(m, i, truncated), f)
  {
    var m1 := FileFinished(m, i, truncated);
    hide FinishCalls;
    if n :| 0 <= n < |m.events| && Tells(m.events[n], f) {
      ToldStays(m, m1, f, n);
    } else {
      var at :| KeptAt(m, at, f);
      var k, j := at.k, at.j;
      if k == i {
        FinishTells(m, i, j, truncated, f);
      } else {
        WithoutKeeps(m.files, i, k);
        assert KeptAt(m1, Place(if k < i then k else k - 1, j), f);
      }
    }
  }

  lemma {:induction false} FinishTells(m: Machine, i: nat, j: nat, truncated: bool, f: u16)
    requires KeptAt(m, Place(i, j), f)
    ensures Astray(FileFinished(m, i, truncated), f)
  {
    var x := m.files[i];
    var n := EndsTell(x.filenum, x.attrs, j, f);
    hide EndCalls;
    assert FinishCalls(x, truncated)[n] == EndCalls(x.filenum, x.attrs)[n];
    TellsNow(m, FinishCalls(x, truncated), n, f, FileFinished(m, i, truncated));
  }

  lemma {:induction false} KnownAstray(m: Machine, g: u16, truncated: bool, f: u16)
    requires Astray(m, f)
    ensures Astray(KnownFinished(m, g, truncated), f)
  {
    var i := FindOpen(m.files, g);
    if i < |m.files| {
      var m1 := FileFinished(m, i, truncated);
      FinishAstray(m, i, truncated, f);
      hide FileFinished;
      SameAstray(m1, m1.(cache := NoCache), f);
    }
  }

  lemma {:induction false} SameAstray(m: Machine, m1: Machine, f: u16)
    requires Astray(m, f) && m1.files == m.files && m.events <= m1.events
    ensures Astray(m1, f)
  {
    if n :| 0 <= n < |m.events| && Tells(m.events[n], f) {
      ToldStays(m, m1, f, n);
    } else {
      var at :| KeptAt(m, at, f);
      var k, j := at.k, at.j;
      assert KeptAt(m1, Place(k, j), f);
    }
  }

  lemma {:induction false} StartAstray(ignores: Ignores, m: Machine, g: u16, name: seq<byte>, f: u16)
    requires Astray(m, f)
    ensures Astray(FileStarted(ignores, m, g, name), f)
  {
    var m1 := FileStarted(ignores, m, g, name);
    if n :| 0 <= n < |m.events| && Tells(m.events[n], f) {
      ToldStays(m, m1, f, n);
    } else {
      var at :| KeptAt(m, at, f);
      var k, j := at.k, at.j;
      assert KeptAt(m1, Place(k + 1, j), f);
    }
  }

  /** Closing everything tells whatever was kept. */
  lemma {:induction false} AllTell(m: Machine, f: u16) returns (i: nat)
    requires Astray(m, f)
    ensures i < |AllFinished(m).events| && Tells(AllFinished(m).events[i], f)
    decreases |m.files|
  {
    if m.files == [] {
      i :| 0 <= i < |m.events| && Tells(m.events[i], f);
    } else {
      hide FileFinished;
      FinishAstray(m, 0, true, f);
      assert |FileFinished(m, 0, true).files| < |m.files| by { OneLess(m); }
      i := AllTell(FileFinished(m, 0, true), f);
    }
  }

  /** What handle_hunk does under a minimum size that is never reached. */
  lemma {:induction false} KeptBack(f0: u16, x: AttrBuf, data: seq<byte>, eoa: bool)
    requires |x.buf| + |data| < x.handling.minSize
    ensures HunkHandled(f0, x, data, eoa) ==
      if eoa then Hunked(x.(buf := [], wroteEoa := true), [FragmentCall(f0, x.attrid, x.buf + data, true, false)])
      else Hunked(x.(buf := x.buf + data), [])
  {}

  lemma {:induction false} SetUpAstray(hs: seq<Handling>, m: Machine, k: nat, a: u16, f: u16)
    requires Terminated(hs) && k < |m.files| && Astray(m, f)
    ensures Astray(SetUp(hs, m, k, a).m, f)
  {
    var m1 := SetUp(hs, m, k, a).m;
    hide HandlingOf, FindBuf;
    if n :| 0 <= n < |m.events| && Tells(m.events[n], f) {
      ToldStays(m, m1, f, n);
    } else {
      var at :| KeptAt(m, at, f);
      var i, j := at.k, at.j;
      if m1 == m {
        assert KeptAt(m1, Place(i, j), f);
      } else {
        assert KeptAt(m1, Place(i, if i == k then j + 1 else j), f);
      }
    }
  }

  /** A whole record of an attribute with a state, all of it in the buffer. */
  lemma {:induction false} RecordedAstray(m: Machine, p: Place, f0: u16, eoa: bool, data: seq<byte>, n: nat, f: u16)
    requires At(m, p) && Astray(m, f) && |data| <= n && !AttrAt(m, p).wroteEoa
    requires |AttrAt(m, p).buf| + |data| < AttrAt(m, p).handling.minSize
    requires eoa ==> m.files[p.k].filenum == f0
    ensures Astray(Recorded(m, p, f0, eoa, data, n), f)
  {
    var x, m1 := AttrAt(m, p), Recorded(m, p, f0, eoa, data, n);
    KeptBack(f0, x, data, eoa);
    hide HunkHandled;
    if i :| 0 <= i < |m.events| && Tells(m.events[i], f) {
      ToldStays(m, m1, f, i);
    } else {
      var at :| KeptAt(m, at, f);
      var k, j := at.k, at.j;
      if Place(k, j) == p {
        if eoa {
          TellsNow(m, [FragmentCall(f0, x.attrid, x.buf + data, true, false)], 0, f, m1);
        } else {
          assert KeptAt(m1, p, f);
        }
      } else {
        KeptElsewhere(m, p, f0, eoa, data, n, f, k, j);
      }
    }
  }

  lemma {:induction false} KeptElsewhere(m: Machine, p: Place, f0: u16, eoa: bool, data: seq<byte>, n: nat, f: u16, k: nat, j: nat)
    requires At(m, p) && KeptAt(m, Place(k, j), f) && Place(k, j) != p && |data| <= n
    requires eoa ==> m.files[p.k].filenum == f0
    ensures Astray(Recorded(m, p, f0, eoa, data, n), f)
  {
    var m1 := Recorded(m, p, f0, eoa, data, n);
    hide HunkHandled;
    var j1 := if eoa && k == p.k && j > p.j then j - 1 else j;
    assert KeptAt(m1, Place(k, j1), f);
  }

  lemma {:induction false} SetUpBelow(hs: seq<Handling>, m: Machine, k: nat, a: u16, s: nat, bound: nat)
    requires Terminated(hs) && k < |m.files| && Sized(hs, m) && Below(hs, m, s, bound)
    ensures var r := SetUp(hs, m, k, a);
      Below(hs, r.m, s, bound) && !AttrAt(r.m, r.p).wroteEoa && |AttrAt(r.m, r.p).buf| <= s && AttrAt(r.m, r.p).handling == HandlingOf(hs, a)
  {
    var j := FindBuf(m.files[k].attrs, a);
    if j < |m.files[k].attrs| {
      assert GoodAttr(hs, m.files[k].attrs[j]) by { assert GoodFile(hs, m.files[k]); }
    }
    hide HandlingOf, GoodFiles, LargeFragments;
  }

  lemma {:induction false} RecordedBelow(hs: seq<Handling>, m: Machine, p: Place, f0: u16, eoa: bool, data: seq<byte>, n: nat, s: nat, bound: nat)
    requires Terminated(hs) && At(m, p) && Below(hs, m, s, bound) && |data| <= n
    ensures Below(hs, Recorded(m, p, f0, eoa, data, n), s + |data|, bound)
  {
    hide HandlingOf;
    assert |HunkHandled(f0, AttrAt(m, p), data, eoa).attr.buf| <= s + |data|;
    hide HunkHandled;
  }

  lemma {:induction false} WholeBelow(hs: seq<Handling>, m: Machine, k: nat, f0: u16, a: u16, eoa: bool, data: seq<byte>, n: nat, s: nat, bound: nat, f: u16)
    requires Terminated(hs) && k < |m.files| && Sized(hs, m) && Below(hs, m, s, bound) && |data| <= n && s + |data| < bound
    requires eoa ==> m.files[k].filenum == f0
    ensures var m1 := WholeRecord(hs, m, k, f0, a, eoa, data, n);
      Below(hs, m1, s + |data|, bound) && (Astray(m, f) ==> Astray(m1, f))
  {
    SetUpBelow(hs, m, k, a, s, bound);
    var r := SetUp(hs, m, k, a);
    hide HandlingOf, Recorded, Direct, GoodFiles, LargeFragments, FindBuf, Astray, SetUp;
    RecordedBelow(hs, r.m, r.p, f0, eoa, data, n, s, bound);
    if Astray(m, f) {
      SetUpAstray(hs, m, k, a, f);
      SetUpFinds(hs, m, k, a);
      RecordedAstray(r.m, r.p, f0, eoa, data, n, f);
      SameAstrayMore(m, f, a, f0, data, n);
    }
  }

  lemma {:induction false} SameAstrayMore(m: Machine, f: u16, a: u16, f0: u16, data: seq<byte>, n: nat)
    requires Astray(m, f)
    ensures Astray(Machine(m.files, NoCache, m.events + Direct(f0, a, data, n)), f) && Astray(Machine(m.files, NoCache, m.events + []), f)
  {
    hide Direct;
    SameAstray(m, Machine(m.files, NoCache, m.events + Direct(f0, a, data, n)), f);
    SameAstray(m, Machine(m.files, NoCache, m.events + []), f);
  }

  function Size(item: Item): nat {
    if item.Rec? then |item.data| else 0
  }

  function Total(items: seq<Item>): nat {
    if items == [] then 0 else Size(items[0]) + Total(items[1..])
  }

  lemma {:induction false} KnownBelow(hs: seq<Handling>, m: Machine, g: u16, truncated: bool, s: nat, bound: nat)
    requires Terminated(hs) && Below(hs, m, s, bound)
    ensures Below(hs, KnownFinished(m, g, truncated), s, bound)
  {
    hide HandlingOf, FinishCalls;
  }

  lemma {:induction false} StartBelow(hs: seq<Handling>, ignores: Ignores, m: Machine, g: u16, name: seq<byte>, s: nat, bound: nat)
    requires Terminated(hs) && Below(hs, m, s, bound)
    ensures Below(hs, FileStarted(ignores, m, g, name), s, bound)
  {
    hide HandlingOf;
  }

  lemma {:induction false} MoreBelow(hs: seq<Handling>, m: Machine, s: nat, more: nat, bound: nat)
    requires Terminated(hs) && Below(hs, m, s, bound)
    ensures Below(hs, m, s + more, bound)
  {
    hide HandlingOf;
  }

  /** No record delivers a one that was kept as data of file f, or loses it. */
  lemma {:induction false} TurnAstray(hs: seq<Handling>, c: Caller, m: Machine, t: Track, item: Item, n: nat, s: nat, bound: nat, f: u16)
    requires Terminated(hs) && Follows(hs, c, m, t) && KnownAttrids([item]) && !(Confuses(t, item) && item.eoa)
    requires Below(hs, m, s, bound) && Size(item) <= n && s + Size(item) < bound
    ensures var m1 := Turn(hs, c.ignores, m, item, n);
      Below(hs, m1, s + Size(item), bound) && (Astray(m, f) ==> Astray(m1, f))
  {
    assert [item][0] == item;
    hide HandlingOf, KnownFinished, FileStarted, WholeRecord, Below, Astray, Confuses, Follows;
    match item
    case Header =>
    case Rec(g, a, eoa, data) =>
      MoreBelow(hs, m, s, |data|, bound);
      if a == ATTR_EOF {
        KnownBelow(hs, m, g, false, s + |data|, bound);
        if Astray(m, f) { KnownAstray(m, g, false, f); }
      } else if a == ATTR_FILENAME {
        KnownBelow(hs, m, g, true, s + |data|, bound);
        StartBelow(hs, c.ignores, KnownFinished(m, g, true), g, data, s + |data|, bound);
        if Astray(m, f) {
          KnownAstray(m, g, true, f);
          StartAstray(c.ignores, KnownFinished(m, g, true), g, data, f);
        }
      } else {
        AppAstray(hs, c, m, t, item, n, s, bound, f);
      }
  }

  lemma {:induction false} AppAstray(hs: seq<Handling>, c: Caller, m: Machine, t: Track, item: Item, n: nat, s: nat, bound: nat, f: u16)
    requires Terminated(hs) && Follows(hs, c, m, t) && item.Rec? && item.attrid >= ATTR_APP_START && !(Confuses(t, item) && item.eoa)
    requires Below(hs, m, s, bound) && |item.data| <= n && s + |item.data| < bound
    ensures var m1 := AppRecord(hs, m, item.filenum, item.attrid, item.eoa, item.data, n);
      Below(hs, m1, s + |item.data|, bound) && (Astray(m, f) ==> Astray(m1, f))
  {
    MistakesFollow(hs, c, m, t, item);
    MoreBelow(hs, m, s, |item.data|, bound);
    if Accepts(m, item.filenum) {
      AppIs(hs, m, item.filenum, item.attrid, item.eoa, item.data, n);
      hide HandlingOf, WholeRecord, Below, Astray, Confuses, Sized, FindOpen;
      WholeBelow(hs, m, FindOpen(m.files, Owner(m, item.filenum, item.attrid)), item.filenum, item.attrid, item.eoa, item.data, n, s, bound, f);
    }
  }

  /** Wanted data of file f that is kept under another file's attribute. */
  lemma {:induction false} FillAstray(hs: seq<Handling>, c: Caller, m: Machine, t: Track, item: Item, n: nat, s: nat, bound: nat)
    requires Terminated(hs) && Follows(hs, c, m, t) && Serves(c, hs, c.ignores) && Confuses(t, item) && !item.eoa
    requires c.wants(item.attrid) && 1 in item.data
    requires Below(hs, m, s, bound) && |item.data| <= n && s + |item.data| < bound
    ensures Astray(Turn(hs, c.ignores, m, item, n), item.filenum)
  {
    var f, a, data := item.filenum, item.attrid, item.data;
    MistakesFollow(hs, c, m, t, item);
    AppIs(hs, m, f, a, false, data, n);
    var k := FindOpen(m.files, Owner(m, f, a));
    var p := Place(k, FindBuf(m.files[k].attrs, a));
    var x := AttrAt(m, p);
    assert GoodAttr(hs, x) by { assert GoodFile(hs, m.files[k]); }
    assert x.handling == HandlingOf(hs, a) && x.handling.callback && |x.buf| <= s;
    KeptBack(f, x, data, false);
    assert 1 in x.buf + data;
    hide HandlingOf, HunkHandled, FindBuf, FindOpen, GoodFiles, LargeFragments;
    var m1 := WholeRecord(hs, m, k, f, a, false, data, n);
    assert KeptAt(m1, p, f);
  }

  /** Every cut is large enough for the record to be in the buffer whole. */
  predicate Roomy(cuts: Cuts, items: seq<Item>) {
    |cuts| == |items| && forall i | 0 <= i < |items| :: Size(items[i]) <= cuts[i]
  }

  predicate SomeTell(events: seq<Event>, f: u16) {
    exists i | 0 <= i < |events| :: Tells(events[i], f)
  }

  lemma {:induction false} RunAstray(hs: seq<Handling>, c: Caller, m: Machine, t: Track, items: seq<Item>, cuts: Cuts, s: nat, bound: nat, f: u16)
    requires Terminated(hs) && Follows(hs, c, m, t) && Serves(c, hs, c.ignores) && KnownAttrids(items) && !FreesIn(c, t, items)
    requires Below(hs, m, s, bound) && Roomy(cuts, items) && s + Total(items) < bound && Astray(m, f)
    ensures SomeTell(ReadItems(hs, c.ignores, m, Parsed(items, Eof), cuts).events, f)
    decreases |items|
  {
    if items == [] {
      var i := AllTell(m, f);
    } else {
      var item, m1 := items[0], Turn(hs, c.ignores, m, items[0], Cut(cuts));
      FirstKnown(items);
      if item.Rec? { MistakesFollow(hs, c, m, t, item); }
      hide HandlingOf, Turn, Follows, Below, Astray, Confuses, TrackItem, Mistakes, SomeTell;
      TurnAstray(hs, c, m, t, item, Cut(cuts), s, bound, f);
      TurnFollows(hs, c.ignores, c, m, t, item, Cut(cuts));
      RunAstray(hs, c, m1, TrackItem(c, t, item), items[1..], LaterCuts(cuts), s + Size(item), bound, f);
    }
  }

  /** Record k is the first mistaken one with wanted data, and its data has a one in it. */
  lemma {:induction false} RunFills(hs: seq<Handling>, c: Caller, m: Machine, t: Track, items: seq<Item>, cuts: Cuts, s: nat, bound: nat, k: nat)
    requires Terminated(hs) && Follows(hs, c, m, t) && Serves(c, hs, c.ignores) && KnownAttrids(items) && !FreesIn(c, t, items)
    requires Below(hs, m, s, bound) && Roomy(cuts, items) && s + Total(items) < bound
    requires k < |items| && items[k].Rec? && c.wants(items[k].attrid) && 1 in items[k].data
    requires Confuses(TrackAll(c, t, items[..k]), items[k])
    ensures SomeTell(ReadItems(hs, c.ignores, m, Parsed(items, Eof), cuts).events, items[k].filenum)
    decreases |items|
  {
    var item, m1 := items[0], Turn(hs, c.ignores, m, items[0], Cut(cuts));
    FirstKnown(items);
    if item.Rec? { MistakesFollow(hs, c, m, t, item); }
    hide HandlingOf, Turn, Follows, Below, Astray, Confuses, TrackItem, Mistakes, SomeTell, Serves;
    TurnAstray(hs, c, m, t, item, Cut(cuts), s, bound, 0);
    TurnFollows(hs, c.ignores, c, m, t, item, Cut(cuts));
    if k == 0 {
      assert items[..0] == [];
      FillAstray(hs, c, m, t, item, Cut(cuts), s, bound);
      RunAstray(hs, c, m1, TrackItem(c, t, item), items[1..], LaterCuts(cuts), s + Size(item), bound, item.filenum);
    } else {
      assert items[..k][0] == item && items[..k][1..] == items[1..][..k - 1];
      RunFills(hs, c, m1, TrackItem(c, t, item), items[1..], LaterCuts(cuts), s + Size(item), bound, k - 1);
    }
  }

  // ---------- what was told stays told ----------

  lemma {:induction false} JoinSays(js: Joined, events: seq<Event>)
    ensures js.out <= JoinOn(js, events).out
    decreases |events|
  {
    if events != [] {
      assert js.out <= JoinStep(js, events[0]).out;
      JoinSays(JoinStep(js, events[0]), events[1..]);
    }
  }

  lemma {:induction false} ToldObserved(js: Joined, events: seq<Event>, i: nat, f: u16) returns (n: nat)
    requires i < |events| && Tells(events[i], f)
    ensures var out := JoinOn(js, events).out; n < |out| && out[n].Attr? && out[n].filenum != f && 1 in out[n].data
    decreases |events|
  {
    var js1 := JoinStep(js, events[0]);
    if i == 0 {
      n := |js.out|;
      assert 1 in js1.out[n].data;
      JoinSays(js1, events[1..]);
    } else {
      n := ToldObserved(js1, events[1..], i - 1, f);
    }
  }

  lemma {:induction false} ObservedOf(obs: seq<Obs>, n: nat, f: u16, a: u16)
    requires n < |obs| && obs[n].filenum == f && (obs[n].Attr? ==> obs[n].attrid == a)
    ensures obs[n] in ObsOf(obs, f, a)
    decreases |obs|
  {
    if n > 0 {
      ObservedOf(obs[1..], n - 1, f, a);
    }
  }

  lemma {:induction false} OfObserved(obs: seq<Obs>, f: u16, a: u16, o: Obs)
    requires o in ObsOf(obs, f, a)
    ensures o in obs
    decreases |obs|
  {
    if obs[0] != o {
      OfObserved(obs[1..], f, a, o);
    }
  }

  /** Told about a file other than f, and not so by the archive. */
  lemma {:induction false} PureDiffers(x: seq<Obs>, y: seq<Obs>, n: nat, f: u16)
    requires n < |x| && x[n].Attr? && x[n].filenum != f && 1 in x[n].data && PureObs(y, f)
    ensures !SameTold(x, y)
  {
    if SameTold(x, y) {
      var g, a := x[n].filenum, x[n].attrid;
      ObservedOf(x, n, g, a);
      assert ObsOf(x, g, a) == ObsOf(y, g, a);
      OfObserved(y, g, a, x[n]);
      assert false;
    }
  }

  // ---------- the theorem ----------

  lemma {:induction false} FillsGoWrong(c: Caller, items: seq<Item>) returns (hs: seq<Handling>, ys: seq<Item>, cuts: Cuts)
    requires AllWellFormed(items) && items != [] && items[0] == Header
    requires !FreesIn(c, UNTRACKED, items) && FillsIn(c, UNTRACKED, items)
    ensures Terminated(hs) && Serves(c, hs, c.ignores) && SameShape(items, ys) && AllFit(ys) && !ReadsRight(c, hs, ys, cuts)
  {
    var k := FirstFill(c, UNTRACKED, items);
    var f := items[k].filenum;
    ys := Marked(items, k);
    MarkedShape(items, k);
    ShapeWellFormed(items, ys);
    ShapeDecides(c, UNTRACKED, items, ys);
    ShapeTracksAll(c, UNTRACKED, items, ys, k);
    var bound := Total(ys) + 1;
    hs := Uniform(c, bound);
    cuts := seq(|ys|, i requires 0 <= i < |ys| => Size(ys[i]));
    hide Uniform, Marked, Encode, ReadItems, Fold, HandlingOf, FreesIn, FillsIn, TrackAll, Parse, JoinOn, SameTold, Confuses;
    UniformServes(c, bound);
    FullFinal(c, ys);
    ParsesProperly(Encode(ys));
    assert Follows(hs, c, IDLE, UNTRACKED) by { IdleFollows(c, hs); }
    RunFills(hs, c, IDLE, UNTRACKED, ys, cuts, 0, bound, k);
    var x := ReadItems(hs, c.ignores, IDLE, Parsed(ys, Eof), cuts);
    var i :| 0 <= i < |x.events| && Tells(x.events[i], f);
    var n := ToldObserved(NOTHING_YET, x.events, i, f);
    ReportPure(c, items, ys, k);
    PureDiffers(Join(x.events).out, Report(c, Encode(ys)), n, f);
  }

  lemma {:induction false} IdleFollows(c: Caller, hs: seq<Handling>)
    requires Terminated(hs)
    ensures Follows(hs, c, IDLE, UNTRACKED)
  {}

  lemma {:induction false} ShapeTracksAll(c: Caller, t: Track, xs: seq<Item>, ys: seq<Item>, k: nat)
    requires SameShape(xs, ys) && k < |xs|
    ensures TrackAll(c, t, xs[..k]) == TrackAll(c, t, ys[..k])
    ensures Confuses(TrackAll(c, t, xs[..k]), xs[k]) <==> Confuses(TrackAll(c, t, ys[..k]), ys[k])
    decreases k
  {
    if k == 0 {
      assert xs[..0] == [] == ys[..0];
      ShapeTracks(c, t, xs[0], ys[0]);
    } else {
      assert SameItem(xs[0], ys[0]);
      ShapeTracks(c, t, xs[0], ys[0]);
      assert xs[..k][1..] == xs[1..][..k - 1] && ys[..k][1..] == ys[1..][..k - 1];
      hide TrackItem, Confuses;
      ShapeTracksAll(c, TrackItem(c, t, xs[0]), xs[1..], ys[1..], k - 1);
    }
  }

  lemma {:induction false} ReportPure(c: Caller, items: seq<Item>, ys: seq<Item>, k: nat)
    requires k < |items| && items[k].Rec? && ys == Marked(items, k) && AllWellFormed(ys) && ys != [] && ys[0] == Header
    requires KnownAttrids(ys)
    ensures PureObs(Report(c, Encode(ys)), items[k].filenum)
  {
    var f := items[k].filenum;
    hide Fold, Encode, Parse, CloseAll, Filled;
    FullFinal(c, ys);
    FoldPure(c, INITIAL, ys, f);
    AllPure(c, Fold(c, INITIAL, ys).files, f);
  }

  /** An archive is read right, whatever the data in its attributes, the minimum sizes, the buffers and
      the cuts, if and only if no record ends an attribute that it is mistaken for, no mistaken record
      has data that is wanted, and no file is closed with an attribute stranded. */
  lemma {:induction false} AlwaysRightExactly(c: Caller, items: seq<Item>)
    requires AllWellFormed(items) && items != [] && items[0] == Header
    ensures AlwaysRight(c, items) <==> Safe(c, items)
  {
    if Safe(c, items) {
      forall hs, ys, cuts | Terminated(hs) && Serves(c, hs, c.ignores) && SameShape(items, ys) && AllFit(ys)
        ensures ReadsRight(c, hs, ys, cuts)
      {
        SafeReads(c, hs, items, ys, cuts);
      }
    } else {
      hide FreesIn, FillsIn, StrandsIn, ReadsRight, Uniform, SameItem;
      var hs, ys, cuts := GoesWrong(c, items);
      assert !ReadsRight(c, hs, ys, cuts);
    }
  }

  lemma {:induction false} SelfShape(items: seq<Item>)
    ensures SameShape(items, items)
  {}

  lemma {:induction false} GoesWrong(c: Caller, items: seq<Item>) returns (hs: seq<Handling>, ys: seq<Item>, cuts: Cuts)
    requires AllWellFormed(items) && items != [] && items[0] == Header && !Safe(c, items)
    ensures Terminated(hs) && Serves(c, hs, c.ignores) && SameShape(items, ys) && AllFit(ys) && !ReadsRight(c, hs, ys, cuts)
  {
    hide Uniform, HandlingOf, FreesIn, FillsIn, StrandsIn, SameItem, Encode, ReadItems, SameTold, Parse;
    hs, ys, cuts := Uniform(c, 0), items, [];
    UniformServes(c, 0);
    SelfShape(items);
    FullFinal(c, items);
    if FreesIn(c, UNTRACKED, items) {
      FreedExactly(hs, c.ignores, c, Encode(items), cuts);
    } else if FillsIn(c, UNTRACKED, items) {
      hs, ys, cuts := FillsGoWrong(c, items);
    } else {
      NothingFilled(c, hs, UNTRACKED, items);
      RightExactly(c, hs, c.ignores, items, cuts);
    }
  }

  // ---------- archives without any confusion ----------

  lemma {:induction false} CloseBoth(c: Caller, t: Track, item: Item)
    requires t.begun == t.own && !Confuses(t, item)
    ensures TrackItem(c, t, item).begun == TrackItem(c, t, item).own
  {}

  lemma {:induction false} NoClashMore(c: Caller, t: Track, st: ReaderState, items: seq<Item>)
    requires Alongside(t, Delivery(st, map[], t.cache)) && t.begun == t.own && KnownAttrids(items)
    requires !Clashes(c, st, t.cache, items)
    ensures !FreesIn(c, t, items) && !FillsIn(c, t, items) && !StrandsIn(c, t, items)
    decreases |items|
  {
    hide Neat, OpenIn, Deliver, TrackItem, ItemClashes, Step, NextCache, Confuses;
    if items != [] {
      var item, d := items[0], Delivery(st, map[], t.cache);
      FirstKnown(items);
      ConfusesIs(t, st, item);
      DeliverAlongside(c, t, d, item);
      NoClashDelivered(c, st, t.cache, item);
      CloseBoth(c, t, item);
      NoClashMore(c, TrackItem(c, t, item), Step(c, st, item), items[1..]);
    }
  }

  /** An archive in which no record is taken for another file's attribute is always read right. */
  lemma {:induction false} NoClashSafe(c: Caller, items: seq<Item>)
    requires AllWellFormed(items) && items != [] && items[0] == Header && !Clashes(c, INITIAL, NoCache, items)
    ensures Safe(c, items) && AlwaysRight(c, items)
  {
    FullFinal(c, items);
    ParsesProperly(Encode(items));
    BeginAlike(c);
    hide Encode, Parse, Clashes, FreesIn, FillsIn, StrandsIn, AlwaysRight, Alongside;
    NoClashMore(c, UNTRACKED, INITIAL, items);
    AlwaysRightExactly(c, items);
  }
}

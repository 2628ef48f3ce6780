/** What comes of records that are taken for another file's attribute: when memory is misused, when the
    caller is still told the right things, and when nothing can go wrong. */
module AmarConfusion {
  import opened AmarFormat
  import opened Text
  import opened AmarSemantics
  import opened AmarMachine
  import opened AmarDelivery
  import opened AmarRefinement
  import opened AmarReading
  import opened AmarSizes
  import opened AmarTruncation

  // ---------- what can be told from the records' headers alone ----------

  type Key = (u16, u16)

  /** The open files (and whether each is ignored), the remembered attribute, the attributes that have
      begun in a file, and those of them that have a state. */
  datatype Track = Track(open: map<u16, bool>, cache: Cache, begun: set<Key>, own: set<Key>)

  const UNTRACKED := Track(map[], NoCache, {}, {})

  predicate Reads(t: Track, f: u16) {
    f in t.open && !t.open[f]
  }

  /** The record is taken for another file's attribute. */
  predicate Confuses(t: Track, item: Item) {
    && item.Rec? && item.attrid >= ATTR_APP_START && Reads(t, item.filenum)
    && t.cache.Cached? && t.cache.attrid == item.attrid && t.cache.owner != item.filenum
  }

  function NotOf(keys: set<Key>, f: u16): set<Key> {
    set x | x in keys && x.0 != f
  }

  function CloseTrack(t: Track, f: u16): Track {
    if f in t.open then Track(t.open - {f}, NoCache, NotOf(t.begun, f), NotOf(t.own, f)) else t
  }

  /** One record that frees no attribute. */
  function TrackItem(c: Caller, t: Track, item: Item): Track {
    match item
    case Header => t
    case Rec(f, a, eoa, data) =>
      if a == ATTR_EOF then CloseTrack(t, f)
      else if a == ATTR_FILENAME then
        var t1 := CloseTrack(t, f);
        t1.(open := t1.open[f := c.ignores(f, data)])
      else if !Reads(t, f) then t
      else if Confuses(t, item) then t.(begun := t.begun + {(f, a)})
      else if eoa then Track(t.open, NoCache, t.begun - {(f, a)}, t.own - {(f, a)})
      else Track(t.open, Cached(f, a), t.begun + {(f, a)}, t.own + {(f, a)})
  }

  /** Some record ends an attribute that is another file's. */
  predicate FreesIn(c: Caller, t: Track, items: seq<Item>)
    decreases |items|
  {
    items != [] && ((Confuses(t, items[0]) && items[0].eoa) || FreesIn(c, TrackItem(c, t, items[0]), items[1..]))
  }

  /** Some record with data that is wanted is taken for another file's attribute. */
  predicate FillsIn(c: Caller, t: Track, items: seq<Item>)
    decreases |items|
  {
    items != [] &&
    ((Confuses(t, items[0]) && c.wants(items[0].attrid) && items[0].data != []) || FillsIn(c, TrackItem(c, t, items[0]), items[1..]))
  }

  /** A wanted attribute of the file has begun but has no state. */
  predicate Stranded(c: Caller, t: Track, f: u16) {
    exists x | x in t.begun :: x.0 == f && x !in t.own && c.wants(x.1)
  }

  /** The record closes a file. */
  predicate ClosesFile(t: Track, item: Item) {
    item.Rec? && (item.attrid == ATTR_EOF || item.attrid == ATTR_FILENAME) && item.filenum in t.open
  }

  /** Some file is closed while an attribute of it is stranded; at the end all are closed. */
  predicate StrandsIn(c: Caller, t: Track, items: seq<Item>)
    decreases |items|
  {
    if items == [] then exists f | f in t.open :: Stranded(c, t, f)
    else (ClosesFile(t, items[0]) && Stranded(c, t, items[0].filenum)) || StrandsIn(c, TrackItem(c, t, items[0]), items[1..])
  }

  /** Each record that is taken for another file's attribute does no harm to the bytes. */
  predicate HarmlessIn(c: Caller, hs: seq<Handling>, t: Track, items: seq<Item>)
    requires Terminated(hs)
    decreases |items|
  {
    items != [] ==> (Confuses(t, items[0]) ==> Harmless(c, hs, items[0])) && HarmlessIn(c, hs, TrackItem(c, t, items[0]), items[1..])
  }

  // ---------- the track follows the reader ----------

  /** The files of a state are the open ones. */
  predicate OpenIn(t: Track, st: ReaderState) {
    forall f: u16 :: (f in t.open <==> Known(st, f)) && (Reads(t, f) <==> Receives(st, f))
  }

  lemma {:induction false} ConfusesIs(t: Track, st: ReaderState, item: Item)
    requires OpenIn(t, st)
    ensures Confuses(t, item) <==> ItemClashes(st, t.cache, item)
    ensures item.Rec? ==> (Reads(t, item.filenum) <==> Receives(st, item.filenum))
  {}

  lemma {:induction false} ClosedTrack(t: Track, f: u16)
    ensures var t1 := CloseTrack(t, f);
      && t1.cache == (if f in t.open then NoCache else t.cache)
      && forall g: u16 :: (g in t1.open <==> g != f && g in t.open) && (Reads(t1, g) <==> g != f && Reads(t, g))
  {}

  lemma {:induction false} FilesAfterClose(c: Caller, st: ReaderState, f: u16, truncated: bool)
    requires DistinctFiles(st.files)
    ensures var st' := CloseFound(c, st, f, truncated);
      && (forall g: u16 :: Known(st', g) <==> g != f && Known(st, g))
      && (forall g: u16 | g != f :: Receives(st', g) <==> Receives(st, g))
  {
    forall g: u16 ensures Known(CloseFound(c, st, f, truncated), g) <==> g != f && Known(st, g)
      ensures g != f ==> (Receives(CloseFound(c, st, f, truncated), g) <==> Receives(st, g))
    {
      FileAfterClose(c, st, f, truncated, g);
    }
  }

  lemma {:induction false} CloseOpen(c: Caller, t: Track, st: ReaderState, f: u16, truncated: bool)
    requires OpenIn(t, st) && DistinctFiles(st.files)
    ensures OpenIn(CloseTrack(t, f), CloseFound(c, st, f, truncated))
  {
    FilesAfterClose(c, st, f, truncated);
    ClosedTrack(t, f);
    hide Known, Receives, CloseFound, CloseTrack;
  }

  lemma {:induction false} StartedTrack(t: Track, f: u16, ignore: bool)
    ensures var t1 := t.(open := t.open[f := ignore]);
      forall g: u16 :: (g in t1.open <==> g == f || g in t.open) && (Reads(t1, g) <==> if g == f then !ignore else Reads(t, g))
  {}

  lemma {:induction false} FilesAfterStart(c: Caller, st: ReaderState, f: u16, name: seq<byte>)
    requires DistinctFiles(st.files) && !Known(st, f)
    ensures var st' := Start(c, st, f, name);
      forall g: u16 ::
        (Known(st', g) <==> g == f || Known(st, g)) && (Receives(st', g) <==> if g == f then !c.ignores(f, name) else Receives(st, g))
  {
    forall g: u16
      ensures Known(Start(c, st, f, name), g) <==> g == f || Known(st, g)
      ensures Receives(Start(c, st, f, name), g) <==> if g == f then !c.ignores(f, name) else Receives(st, g)
    {
      FileAfterStart(c, st, f, name, g);
    }
  }

  lemma {:induction false} StartOpen(c: Caller, t: Track, st: ReaderState, f: u16, name: seq<byte>)
    requires OpenIn(t, st) && DistinctFiles(st.files) && !Known(st, f)
    ensures OpenIn(t.(open := t.open[f := c.ignores(f, name)]), Start(c, st, f, name))
  {
    FilesAfterStart(c, st, f, name);
    StartedTrack(t, f, c.ignores(f, name));
    hide Known, Receives, Start, Reads;
  }

  lemma {:induction false} DataOpen(c: Caller, t: Track, st: ReaderState, f: u16, a: u16, eoa: bool, data: seq<byte>)
    requires OpenIn(t, st) && DistinctFiles(st.files)
    ensures OpenIn(t, AddData(c, st, f, a, eoa, data))
  {
    forall g: u16 ensures Known(AddData(c, st, f, a, eoa, data), g) <==> Known(st, g)
      ensures Receives(AddData(c, st, f, a, eoa, data), g) <==> Receives(st, g)
    {
      FileAfterData(c, st, f, a, eoa, data, g);
    }
    hide Known, Receives, AddData;
  }

  // ---------- when memory is misused ----------

  /** The reader's open files and remembered attribute are those of the track. */
  ghost predicate Follows(hs: seq<Handling>, c: Caller, m: Machine, t: Track)
    requires Terminated(hs)
  {
    Sized(hs, m) && Sound(m) && m.cache == t.cache && SameOpen(m, t)
  }

  predicate IsOpen(m: Machine, f: u16) {
    FindOpen(m.files, f) < |m.files|
  }

  predicate SameOpen(m: Machine, t: Track) {
    forall f: u16 :: (f in t.open <==> IsOpen(m, f)) && (Reads(t, f) <==> Accepts(m, f))
  }

  lemma {:induction false} MistakesFollow(hs: seq<Handling>, c: Caller, m: Machine, t: Track, item: Item)
    requires Terminated(hs) && Follows(hs, c, m, t) && item.Rec?
    ensures Mistakes(m, item.filenum, item.attrid) <==> Confuses(t, item)
  {
    hide Accepts, FindOpen, Sized, Sound;
  }

  lemma {:induction false} ClosedFiles(hs: seq<Handling>, m: Machine, f: u16, truncated: bool)
    requires Terminated(hs) && GoodFiles(hs, m.files)
    ensures var m1 := KnownFinished(m, f, truncated);
      && m1.cache == (if IsOpen(m, f) then NoCache else m.cache)
      && forall g: u16 :: (IsOpen(m1, g) <==> g != f && IsOpen(m, g)) && (Accepts(m1, g) <==> g != f && Accepts(m, g))
  {
    var m1, i := KnownFinished(m, f, truncated), FindOpen(m.files, f);
    hide GoodFiles, FinishCalls;
    forall g: u16 ensures (IsOpen(m1, g) <==> g != f && IsOpen(m, g)) && (Accepts(m1, g) <==> g != f && Accepts(m, g)) {
      if i < |m.files| { FoundWithout(hs, m.files, i, g); }
    }
  }

  lemma {:induction false} CloseFollows(hs: seq<Handling>, c: Caller, m: Machine, t: Track, f: u16, truncated: bool)
    requires Terminated(hs) && Follows(hs, c, m, t)
    ensures Follows(hs, c, KnownFinished(m, f, truncated), CloseTrack(t, f))
  {
    hide KnownFinished, IsOpen, Accepts, Sound, Reads, CloseTrack, GoodFiles, LargeFragments;
    ClosedFiles(hs, m, f, truncated);
    ClosedTrack(t, f);
    hide Sized;
    KnownFinishedSized(hs, m, f, truncated);
    FinishSound(m, f, truncated);
  }

  lemma {:induction false} FoundWithout(hs: seq<Handling>, xs: seq<OpenFile>, i: nat, g: u16)
    requires Terminated(hs) && GoodFiles(hs, xs) && i < |xs|
    ensures var ys := Without(xs, i);
      && (FindOpen(ys, g) < |ys| <==> g != xs[i].filenum && FindOpen(xs, g) < |xs|)
      && (FindOpen(ys, g) < |ys| ==> ys[FindOpen(ys, g)] == xs[FindOpen(xs, g)])
  {
    hide GoodFile;
    var ys, k := Without(xs, i), FindOpen(xs, g);
    if g == xs[i].filenum {
      FindOpenIs(ys, g, |ys|);
    } else if k < |xs| {
      WithoutKeeps(xs, i, k);
      FindOpenIs(ys, g, if k < i then k else k - 1);
    } else {
      FindOpenIs(ys, g, |ys|);
    }
  }

  lemma {:induction false} StartedFiles(ignores: Ignores, m: Machine, f: u16, name: seq<byte>)
    ensures var m1 := FileStarted(ignores, m, f, name);
      forall g: u16 ::
        (IsOpen(m1, g) <==> g == f || IsOpen(m, g)) && (Accepts(m1, g) <==> if g == f then !ignores(f, name) else Accepts(m, g))
  {
    var m1 := FileStarted(ignores, m, f, name);
    assert m1.files[1..] == m.files;
    forall g: u16 ensures FindOpen(m1.files, g) == if g == f then 0 else 1 + FindOpen(m.files, g) {}
  }

  lemma {:induction false} StartFollows(hs: seq<Handling>, c: Caller, ignores: Ignores, m: Machine, t: Track, f: u16, name: seq<byte>)
    requires Terminated(hs) && Follows(hs, c, m, t) && f !in t.open && c.ignores(f, name) == ignores(f, name)
    ensures Follows(hs, c, FileStarted(ignores, m, f, name), t.(open := t.open[f := c.ignores(f, name)]))
  {
    assert FindOpen(m.files, f) == |m.files| by { assert !IsOpen(m, f); }
    StartedSized(hs, ignores, m, f, name);
    StartSound(ignores, m, f, name);
    hide IsOpen, Accepts, Sized, Sound, Reads, FileStarted;
    StartedFiles(ignores, m, f, name);
    StartedTrack(t, f, c.ignores(f, name));
    assert FileStarted(ignores, m, f, name).cache == m.cache by { StartedCache(ignores, m, f, name); }
  }

  lemma {:induction false} StartedCache(ignores: Ignores, m: Machine, f: u16, name: seq<byte>)
    ensures FileStarted(ignores, m, f, name).cache == m.cache
  {}

  /** A record changes no file's place in the list. */
  lemma {:induction false} WholeRecordFiles(hs: seq<Handling>, m: Machine, k: nat, f: u16, a: u16, eoa: bool, data: seq<byte>, n: nat)
    requires Terminated(hs) && k < |m.files|
    ensures var m1 := WholeRecord(hs, m, k, f, a, eoa, data, n);
      && |m1.files| == |m.files|
      && (forall i | 0 <= i < |m.files| :: m1.files[i].filenum == m.files[i].filenum && m1.files[i].ignore == m.files[i].ignore)
      && m1.cache == if eoa then NoCache else Cached(m.files[k].filenum, a)
  {
    hide HandlingOf, Hunks, FindBuf, Direct;
    var s := SetUp(hs, m, k, a);
    HunksSameLists(s.m, s.p, f, data, eoa, n);
  }

  lemma {:induction false} StayOpen(m: Machine, m1: Machine)
    requires |m1.files| == |m.files|
    requires forall i | 0 <= i < |m.files| :: m1.files[i].filenum == m.files[i].filenum && m1.files[i].ignore == m.files[i].ignore
    ensures forall g: u16 :: (IsOpen(m1, g) <==> IsOpen(m, g)) && (Accepts(m1, g) <==> Accepts(m, g))
  {
    forall g: u16 ensures FindOpen(m1.files, g) == FindOpen(m.files, g) {
      FindOpenSame(m1.files, m.files, g);
    }
  }

  lemma {:induction false} AppFollows(hs: seq<Handling>, c: Caller, m: Machine, t: Track, item: Item, n: nat)
    requires Terminated(hs) && Follows(hs, c, m, t) && item.Rec? && item.attrid >= ATTR_APP_START
    requires item.attrid != ATTR_EOF && item.attrid != ATTR_FILENAME && !(Confuses(t, item) && item.eoa)
    ensures Follows(hs, c, AppRecord(hs, m, item.filenum, item.attrid, item.eoa, item.data, n), TrackItem(c, t, item))
  {
    var f, a := item.filenum, item.attrid;
    MistakesFollow(hs, c, m, t, item);
    if Accepts(m, f) {
      AppIs(hs, m, f, a, item.eoa, item.data, n);
      var k := FindOpen(m.files, Owner(m, f, a));
      hide WholeRecord, FindOpen, Accepts, IsOpen, Sized, Sound, Mistakes, Owner, AppRecord;
      var m1 := WholeRecord(hs, m, k, f, a, item.eoa, item.data, n);
      WholeRecordSized(hs, m, k, f, a, item.eoa, item.data, n);
      WholeRecordFiles(hs, m, k, f, a, item.eoa, item.data, n);
      StayOpen(m, m1);
      RecordSound(hs, m, f, a, item.eoa, item.data, n);
      TrackOpen(c, t, item);
      hide Follows, TrackItem;
      FollowsOn(hs, c, m, t, m1, TrackItem(c, t, item));
    }
  }

  lemma {:induction false} FollowsOn(hs: seq<Handling>, c: Caller, m: Machine, t: Track, m1: Machine, t1: Track)
    requires Terminated(hs) && Follows(hs, c, m, t) && Sized(hs, m1) && Sound(m1)
    requires t1.open == t.open && t1.cache == m1.cache
    requires forall g: u16 :: (IsOpen(m1, g) <==> IsOpen(m, g)) && (Accepts(m1, g) <==> Accepts(m, g))
    ensures Follows(hs, c, m1, t1)
  {
    hide IsOpen, Accepts, Sized, Sound;
    assert forall g: u16 :: Reads(t1, g) <==> Reads(t, g);
  }

  lemma {:induction false} RecordSound(hs: seq<Handling>, m: Machine, f: u16, a: u16, eoa: bool, data: seq<byte>, n: nat)
    requires Terminated(hs) && Sound(m) && Accepts(m, f)
    ensures var k := FindOpen(m.files, Owner(m, f, a));
      k < |m.files| && Sound(WholeRecord(hs, m, k, f, a, eoa, data, n))
  {
    hide WholeRecord;
    AppIs(hs, m, f, a, eoa, data, n);
    WholeRecordSound(hs, m, FindOpen(m.files, Owner(m, f, a)), f, a, eoa, data, n);
  }

  /** A record of an open file leaves the same files open, and says what is remembered. */
  lemma {:induction false} TrackOpen(c: Caller, t: Track, item: Item)
    requires item.Rec? && item.attrid >= ATTR_APP_START && Reads(t, item.filenum)
    ensures var t1 := TrackItem(c, t, item);
      && t1.open == t.open
      && t1.cache == if Confuses(t, item) then t.cache else if item.eoa then NoCache else Cached(item.filenum, item.attrid)
  {}

  lemma {:induction false} TurnFollows(hs: seq<Handling>, ignores: Ignores, c: Caller, m: Machine, t: Track, item: Item, n: nat)
    requires Terminated(hs) && Follows(hs, c, m, t) && Serves(c, hs, ignores) && KnownAttrids([item])
    requires !(Confuses(t, item) && item.eoa)
    ensures Follows(hs, c, Turn(hs, ignores, m, item, n), TrackItem(c, t, item))
  {
    assert [item][0] == item;
    hide Follows, KnownFinished, FileStarted, AppRecord, Confuses, HandlingOf;
    match item
    case Header =>
    case Rec(f, a, eoa, data) =>
      if a == ATTR_EOF {
        CloseFollows(hs, c, m, t, f, false);
      } else if a == ATTR_FILENAME {
        CloseFollows(hs, c, m, t, f, true);
        StartFollows(hs, c, ignores, KnownFinished(m, f, true), CloseTrack(t, f), f, data);
      } else {
        AppFollows(hs, c, m, t, item, n);
      }
  }

  /** The data in which the input ends is skipped, and the attribute with it, where nobody wants it. */
  predicate StopFrees(c: Caller, t: Track, stop: Stop) {
    stop.Partial? && !c.wants(stop.attrid) && stop.eoa && Confuses(t, Rec(stop.filenum, stop.attrid, stop.eoa, stop.data))
  }

  function TrackAll(c: Caller, t: Track, items: seq<Item>): Track
    decreases |items|
  {
    if items == [] then t else TrackAll(c, TrackItem(c, t, items[0]), items[1..])
  }

  lemma {:induction false} ItemsFree(hs: seq<Handling>, ignores: Ignores, c: Caller, m: Machine, t: Track, p: Parsed, cuts: Cuts)
    requires Terminated(hs) && Follows(hs, c, m, t) && Serves(c, hs, ignores) && KnownAttrids(p.items) && ProperStop(p.stop)
    ensures ReadItems(hs, ignores, m, p, cuts).result.Dangling? <==>
      FreesIn(c, t, p.items) || StopFrees(c, TrackAll(c, t, p.items), p.stop)
    decreases |p.items|
  {
    hide HandlingOf, Turn, Follows, Serves, Halted, Mistakes;
    if p.items == [] {
      HaltFrees(hs, ignores, c, m, t, p.stop, Cut(cuts));
    } else {
      var item := p.items[0];
      FirstKnown(p.items);
      if item.Rec? { MistakesFollow(hs, c, m, t, item); }
      if !Frees(m, item) {
        TurnFollows(hs, ignores, c, m, t, item, Cut(cuts));
        ItemsFree(hs, ignores, c, Turn(hs, ignores, m, item, Cut(cuts)), TrackItem(c, t, item), Parsed(p.items[1..], p.stop), LaterCuts(cuts));
      }
    }
  }

  lemma {:induction false} HaltFrees(hs: seq<Handling>, ignores: Ignores, c: Caller, m: Machine, t: Track, stop: Stop, n: nat)
    requires Terminated(hs) && Follows(hs, c, m, t) && Serves(c, hs, ignores) && ProperStop(stop)
    ensures Halted(hs, m, stop, n).result.Dangling? <==> StopFrees(c, t, stop)
  {
    hide HandlingOf, Stopping, AllFinished, FindOpen;
    if stop.Partial? {
      var f, a := stop.filenum, stop.attrid;
      MistakesFollow(hs, c, m, t, Rec(f, a, stop.eoa, stop.data));
      if Accepts(m, f) {
        AppIs(hs, m, f, a, stop.eoa, stop.data, n);
        HandledWell(hs, m, FindOpen(m.files, Owner(m, f, a)), a);
      }
    }
  }

  lemma {:induction false} HandledWell(hs: seq<Handling>, m: Machine, k: nat, a: u16)
    requires Terminated(hs) && Sized(hs, m) && k < |m.files|
    ensures HandlingAt(hs, m, k, a) == HandlingOf(hs, a)
  {
    var j := FindBuf(m.files[k].attrs, a);
    if j < |m.files[k].attrs| {
      assert GoodAttr(hs, m.files[k].attrs[j]) by { assert GoodFile(hs, m.files[k]); }
    }
  }

  /** For every input, whatever the minimum sizes and however each record was cut: an attribute is
      freed while another file still has it in its list if and only if a record that ends an attribute
      carries the remembered attribute's number and is another file's (or the input ends inside such
      a record, which nobody wants). */
  lemma {:induction false} FreedExactly(hs: seq<Handling>, ignores: Ignores, c: Caller, b: seq<byte>, cuts: Cuts)
    requires Terminated(hs) && Serves(c, hs, ignores)
    ensures ReadBytes(hs, ignores, b, cuts).result.Dangling? <==>
      Begins(b) && (FreesIn(c, UNTRACKED, Parse(b).items) || StopFrees(c, TrackAll(c, UNTRACKED, Parse(b).items), Parse(b).stop))
  {
    if Begins(b) {
      ParsesProperly(b);
      assert Sized(hs, IDLE);
      assert Follows(hs, c, IDLE, UNTRACKED);
      hide HandlingOf, Follows, ReadItems, Parse, FreesIn, StopFrees, TrackAll;
      ItemsFree(hs, ignores, c, IDLE, UNTRACKED, Parse(b), cuts);
    }
  }

  /** The freed attribute is still in the list of its own, open file. */
  lemma {:induction false} StillListed(hs: seq<Handling>, ignores: Ignores, m: Machine, item: Item, n: nat)
    requires Terminated(hs) && Sound(m) && Frees(m, item)
    ensures var m1 := Turn(hs, ignores, m, item, n); var k := FindOpen(m1.files, m.cache.owner);
      m.cache.owner != item.filenum && k < |m1.files| && !Stateless(m1, k, item.attrid)
  {
    var f, a := item.filenum, item.attrid;
    hide HandlingOf, Hunks;
    AppIs(hs, m, f, a, true, item.data, n);
    var k := FindOpen(m.files, m.cache.owner);
    var m1 := WholeRecord(hs, m, k, f, a, true, item.data, n);
    var s := SetUp(hs, m, k, a);
    HunksSameLists(s.m, s.p, f, item.data, true, n);
    FoundAgain(m, m1, k, a);
  }
}

/** Fragments keep to the minimum sizes, for every input. */
module AmarSizes {
  import opened AmarFormat
  import opened Text
  import opened AmarSemantics
  import opened AmarMachine
  import opened AmarDelivery
  import opened AmarRefinement
  import opened AmarReading

  /** The buffers are as they should be and every fragment but an attribute's last was large enough. */
  predicate Sized(hs: seq<Handling>, m: Machine)
    requires Terminated(hs)
  {
    GoodFiles(hs, m.files) && LargeFragments(hs, m.events)
  }

  lemma {:induction false} LargeMore(hs: seq<Handling>, x: seq<Event>, y: seq<Event>)
    requires Terminated(hs) && LargeFragments(hs, x) && LargeFragments(hs, y)
    ensures LargeFragments(hs, x + y)
  {
    hide HandlingOf;
  }

  lemma {:induction false} HunkSized(hs: seq<Handling>, m: Machine, p: Place, f: u16, data: seq<byte>, eoa: bool)
    requires Terminated(hs) && Sized(hs, m) && At(m, p) && AttrAt(m, p).handling.callback
    ensures var m' := HunkAt(m, p, f, data, eoa);
      && LargeFragments(hs, m'.events)
      && (!eoa ==> Sized(hs, m') && AttrAt(m', p).handling == AttrAt(m, p).handling)
  {
    var x := AttrAt(m, p);
    var h := HunkHandled(f, x, data, eoa);
    assert GoodAttr(hs, x) by { assert GoodFile(hs, m.files[p.k]); }
    assert LargeFragments(hs, h.calls);
    LargeMore(hs, m.events, h.calls);
    if !eoa {
      assert GoodAttr(hs, h.attr) && h.attr.attrid == x.attrid;
      GrownGood(hs, m.files[p.k], p.j, h.attr);
      hide HandlingOf, GoodAttr, GoodFile, LargeFragments;
      StillGood(hs, m.files, p.k, m.files[p.k].attrs[p.j := h.attr]);
    }
  }

  lemma {:induction false} HunksSized(hs: seq<Handling>, m: Machine, p: Place, f: u16, data: seq<byte>, eoa: bool, n: nat)
    requires Terminated(hs) && Sized(hs, m) && At(m, p) && AttrAt(m, p).handling.callback
    ensures LargeFragments(hs, Hunks(m, p, f, data, eoa, n).events)
    ensures !eoa ==> Sized(hs, Hunks(m, p, f, data, eoa, n))
  {
    hide HandlingOf, HunkAt, GoodFiles;
    if |data| <= n {
      HunkSized(hs, m, p, f, data, eoa);
    } else {
      HunkSized(hs, m, p, f, data[..n], false);
      HunkSized(hs, HunkAt(m, p, f, data[..n], false), p, f, data[n..], eoa);
    }
  }

  /** With the attribute that ended out of the list, the rest is as it was. */
  lemma {:induction false} DropGood(hs: seq<Handling>, m: Machine, m1: Machine, p: Place)
    requires Terminated(hs) && GoodFiles(hs, m.files) && At(m, p)
    requires At(m1, p) && Replace(m1.files, p.k, m.files[p.k].attrs) == m.files
    requires |m1.files[p.k].attrs| == |m.files[p.k].attrs|
    requires forall j | 0 <= j < |m.files[p.k].attrs| && j != p.j :: m1.files[p.k].attrs[j] == m.files[p.k].attrs[j]
    ensures GoodFiles(hs, DropAttr(m1, p).files)
  {
    LeftGood(hs, m.files[p.k], p.j);
    assert Without(m1.files[p.k].attrs, p.j) == Without(m.files[p.k].attrs, p.j);
    assert DropAttr(m1, p).files == Replace(m.files, p.k, Without(m.files[p.k].attrs, p.j));
    hide HandlingOf, GoodAttr, GoodFile;
    StillGood(hs, m.files, p.k, Without(m.files[p.k].attrs, p.j));
  }

  lemma {:induction false} HunksElsewhere(m: Machine, p: Place, f: u16, data: seq<byte>, eoa: bool, n: nat)
    requires At(m, p)
    ensures var m1 := Hunks(m, p, f, data, eoa, n);
      && Replace(m1.files, p.k, m.files[p.k].attrs) == m.files && |m1.files[p.k].attrs| == |m.files[p.k].attrs|
      && forall j | 0 <= j < |m.files[p.k].attrs| && j != p.j :: m1.files[p.k].attrs[j] == m.files[p.k].attrs[j]
  {
    hide HunkHandled;
  }

  lemma {:induction false} RecordedSized(hs: seq<Handling>, m: Machine, p: Place, f: u16, eoa: bool, data: seq<byte>, n: nat)
    requires Terminated(hs) && Sized(hs, m) && At(m, p)
    ensures var m' := Recorded(m, p, f, eoa, data, n);
      LargeFragments(hs, m'.events) && (!eoa || m.files[p.k].filenum == f ==> Sized(hs, m'))
  {
    hide HandlingOf, Hunks, GoodFiles, DropAttr;
    if AttrAt(m, p).handling.callback {
      HunksSized(hs, m, p, f, data, eoa, n);
      HunksElsewhere(m, p, f, data, eoa, n);
      DropGood(hs, m, Hunks(m, p, f, data, eoa, n), p);
    } else {
      assert Replace(m.files, p.k, m.files[p.k].attrs) == m.files;
      DropGood(hs, m, m, p);
    }
    assert DropAttr(m, p).events == m.events by { DropEvents(m, p); }
    assert eoa && AttrAt(m, p).handling.callback && m.files[p.k].filenum == f ==>
      Recorded(m, p, f, eoa, data, n).events == Hunks(m, p, f, data, eoa, n).events by { DropEvents(Hunks(m, p, f, data, eoa, n), p); }
  }

  lemma {:induction false} DropEvents(m: Machine, p: Place)
    requires At(m, p)
    ensures DropAttr(m, p).events == m.events
  {}

  lemma {:induction false} SetUpSized(hs: seq<Handling>, m: Machine, k: nat, a: u16)
    requires Terminated(hs) && Sized(hs, m) && k < |m.files|
    ensures var s := SetUp(hs, m, k, a);
      Sized(hs, s.m) && s.p.k == k && |s.m.files| == |m.files| && s.m.files[k].filenum == m.files[k].filenum
  {
    hide HandlingOf, LargeFragments;
    if Stateless(m, k, a) {
      FreshGood(hs, m.files[k], a);
      hide GoodAttr, GoodFile;
      StillGood(hs, m.files, k, [AttrBuf(a, HandlingOf(hs, a), [], false)] + m.files[k].attrs);
    }
  }

  lemma {:induction false} DirectLarge(hs: seq<Handling>, f: u16, a: u16, data: seq<byte>, n: nat)
    requires Terminated(hs) && (|data| <= n || HandlingOf(hs, a).minSize <= n)
    ensures LargeFragments(hs, Direct(f, a, data, n))
  {
    hide HandlingOf;
  }

  lemma {:induction false} WholeRecordSized(hs: seq<Handling>, m: Machine, k: nat, f: u16, a: u16, eoa: bool, data: seq<byte>, n: nat)
    requires Terminated(hs) && Sized(hs, m) && k < |m.files|
    ensures var m' := WholeRecord(hs, m, k, f, a, eoa, data, n);
      LargeFragments(hs, m'.events) && (!eoa || m.files[k].filenum == f ==> Sized(hs, m'))
  {
    var h := HandlingOf(hs, a);
    hide HandlingOf, Recorded, GoodFiles, Direct, SetUp, FindBuf, LargeFragments;
    if Stateless(m, k, a) && eoa && (h.callback ==> |data| <= n || h.minSize <= n) {
      assert m.events + [] == m.events;
      if h.callback {
        DirectLarge(hs, f, a, data, n);
        LargeMore(hs, m.events, Direct(f, a, data, n));
      }
    } else {
      SetUpSized(hs, m, k, a);
      var s := SetUp(hs, m, k, a);
      RecordedSized(hs, s.m, s.p, f, eoa, data, n);
    }
  }

  lemma {:induction false} EndsLarge(hs: seq<Handling>, f: u16, attrs: seq<AttrBuf>)
    requires Terminated(hs)
    ensures LargeFragments(hs, EndCalls(f, attrs))
    decreases |attrs|
  {
    hide HandlingOf;
    if attrs != [] {
      EndsLarge(hs, f, attrs[1..]);
      LargeMore(hs, EndCall(f, attrs[0], true), EndCalls(f, attrs[1..]));
    }
  }

  lemma {:induction false} FileFinishedSized(hs: seq<Handling>, m: Machine, i: nat, truncated: bool)
    requires Terminated(hs) && Sized(hs, m) && i < |m.files|
    ensures Sized(hs, FileFinished(m, i, truncated))
  {
    var x := m.files[i];
    var last := if x.ignore then [] else [FinishCall(x.filenum, truncated)];
    assert LargeFragments(hs, last);
    hide HandlingOf, GoodFiles, EndCalls, LargeFragments, Without;
    EndsLarge(hs, x.filenum, x.attrs);
    LargeMore(hs, EndCalls(x.filenum, x.attrs), last);
    LargeMore(hs, m.events, FinishCalls(x, truncated));
    WithoutGood(hs, m.files, i);
  }

  lemma {:induction false} AllFinishedSized(hs: seq<Handling>, m: Machine)
    requires Terminated(hs) && Sized(hs, m)
    ensures Sized(hs, AllFinished(m))
    decreases |m.files|
  {
    hide Sized, FileFinished;
    if m.files != [] {
      FileFinishedSized(hs, m, 0, true);
      assert |FileFinished(m, 0, true).files| < |m.files| by { OneLess(m); }
      AllFinishedSized(hs, FileFinished(m, 0, true));
    }
  }

  lemma {:induction false} OneLess(m: Machine)
    requires m.files != []
    ensures |FileFinished(m, 0, true).files| < |m.files|
  {}

  lemma {:induction false} KnownFinishedSized(hs: seq<Handling>, m: Machine, f: u16, truncated: bool)
    requires Terminated(hs) && Sized(hs, m)
    ensures Sized(hs, KnownFinished(m, f, truncated)) && FindOpen(KnownFinished(m, f, truncated).files, f) == |KnownFinished(m, f, truncated).files|
  {
    hide LargeFragments, GoodFile, FinishCalls;
    var i := FindOpen(m.files, f);
    if i < |m.files| {
      FileFinishedSized(hs, m, i, truncated);
      FindOpenIs(Without(m.files, i), f, |m.files| - 1);
    }
  }

  lemma {:induction false} StartedSized(hs: seq<Handling>, ignores: Ignores, m: Machine, f: u16, name: seq<byte>)
    requires Terminated(hs) && Sized(hs, m) && FindOpen(m.files, f) == |m.files|
    ensures Sized(hs, FileStarted(ignores, m, f, name))
  {
    StartedView(hs, m.files, NOTHING_YET, NOTHING_YET, f, ignores(f, name));
    LargeMore(hs, m.events, [StartCall(f, name)]);
    hide HandlingOf, GoodFile;
  }

  lemma {:induction false} TurnSized(hs: seq<Handling>, ignores: Ignores, m: Machine, item: Item, n: nat)
    requires Terminated(hs) && Sized(hs, m) && KnownAttrids([item])
    ensures LargeFragments(hs, Turn(hs, ignores, m, item, n).events)
    ensures !Frees(m, item) ==> Sized(hs, Turn(hs, ignores, m, item, n))
  {
    assert [item][0] == item;
    hide HandlingOf, KnownFinished, FileStarted, WholeRecord, GoodFiles, LargeFragments;
    match item
    case Header =>
    case Rec(f, a, eoa, data) =>
      if a == ATTR_EOF {
        KnownFinishedSized(hs, m, f, false);
      } else if a == ATTR_FILENAME {
        KnownFinishedSized(hs, m, f, true);
        StartedSized(hs, ignores, KnownFinished(m, f, true), f, data);
      } else {
        var k := FindOpen(m.files, Owner(m, f, a));
        if Accepts(m, f) && k < |m.files| {
          WholeRecordSized(hs, m, k, f, a, eoa, data, n);
        }
      }
  }

  lemma {:induction false} CutSized(hs: seq<Handling>, m: Machine, k: nat, f: u16, a: u16, eoa: bool, part: seq<byte>)
    requires Terminated(hs) && Sized(hs, m) && k < |m.files| && HandlingAt(hs, m, k, a).callback
    ensures Sized(hs, CutRecord(hs, m, k, f, a, eoa, part))
  {
    var h := HandlingOf(hs, a);
    hide HandlingOf, HunkAt, GoodFiles, FindBuf;
    if Stateless(m, k, a) && eoa && h.minSize <= |part| {
      assert LargeFragments(hs, [FragmentCall(f, a, part, false, false)]);
      LargeMore(hs, m.events, [FragmentCall(f, a, part, false, false)]);
    } else {
      SetUpSized(hs, m, k, a);
      var s := SetUp(hs, m, k, a);
      hide LargeFragments;
      HunkSized(hs, s.m, s.p, f, part, false);
    }
  }

  lemma {:induction false} HaltSized(hs: seq<Handling>, m: Machine, stop: Stop, n: nat)
    requires Terminated(hs) && Sized(hs, m) && ProperStop(stop)
    ensures LargeFragments(hs, Halted(hs, m, stop, n).events)
  {
    hide HandlingOf, KnownFinished, CutRecord, AllFinished, GoodFiles, LargeFragments, WholeRecord;
    var m1 := Stopping(hs, m, stop, n);
    match stop
    case Padding(f) => KnownFinishedSized(hs, m, f, true); AllFinishedSized(hs, m1);
    case EmptyName(f) => KnownFinishedSized(hs, m, f, true);
    case NameWithoutEoa(f) => KnownFinishedSized(hs, m, f, true);
    case Partial(f, a, eoa, data) => PartialSized(hs, m, stop, n);
    case _ => AllFinishedSized(hs, m1);
  }

  lemma {:induction false} PartialSized(hs: seq<Handling>, m: Machine, stop: Stop, n: nat)
    requires Terminated(hs) && Sized(hs, m) && stop.Partial? && ProperStop(stop)
    ensures LargeFragments(hs, Halted(hs, m, stop, n).events)
  {
    var f, a, k, m1 := stop.filenum, stop.attrid, FindOpen(m.files, Owner(m, stop.filenum, stop.attrid)), Stopping(hs, m, stop, n);
    hide HandlingOf, CutRecord, AllFinished, GoodFiles, LargeFragments, WholeRecord, HandlingAt, FindOpen;
    if Wanted(hs, m, f, a) {
      CutSized(hs, m, k, f, a, stop.eoa, PartOf(stop, n));
      AllFinishedSized(hs, m1);
    } else {
      if Accepts(m, f) && k < |m.files| {
        WholeRecordSized(hs, m, k, f, a, stop.eoa, stop.data, n);
      }
      if !Frees(m, Rec(f, a, stop.eoa, stop.data)) {
        AllFinishedSized(hs, m1);
      }
    }
  }

  lemma {:induction false} ItemsSized(hs: seq<Handling>, ignores: Ignores, m: Machine, p: Parsed, cuts: Cuts)
    requires Terminated(hs) && Sized(hs, m) && KnownAttrids(p.items) && ProperStop(p.stop)
    ensures LargeFragments(hs, ReadItems(hs, ignores, m, p, cuts).events)
    decreases |p.items|
  {
    hide HandlingOf, Sized, Turn, Frees, Halted, LargeFragments;
    if p.items == [] {
      HaltSized(hs, m, p.stop, Cut(cuts));
    } else {
      FirstKnown(p.items);
      TurnSized(hs, ignores, m, p.items[0], Cut(cuts));
      if !Frees(m, p.items[0]) {
        ItemsSized(hs, ignores, Turn(hs, ignores, m, p.items[0], Cut(cuts)), Parsed(p.items[1..], p.stop), LaterCuts(cuts));
      }
    }
  }

  /** Every fragment but an attribute's last has at least the minimum size, for every input. */
  lemma {:induction false} AlwaysLarge(hs: seq<Handling>, ignores: Ignores, b: seq<byte>, cuts: Cuts)
    requires Terminated(hs)
    ensures LargeFragments(hs, ReadBytes(hs, ignores, b, cuts).events)
  {
    hide HandlingOf, Parse, ReadItems;
    assert Sized(hs, IDLE);
    ParsesProperly(b);
    ItemsSized(hs, ignores, IDLE, Parse(b), cuts);
  }
}

/** Archives that show why the conditions of the round-trip and offset theorems are there. */
module AmarExamples {
  import opened AmarFormat
  import opened Text
  import opened AmarSemantics
  import opened AmarMachine
  import opened AmarConfusion

  function Name(f: u16, name: seq<byte>): Item {
    Rec(f, ATTR_FILENAME, true, name)
  }

  /** Two open files that use the same attribute number: with one record each, for any files and any
      number that is wanted, reading goes wrong.  If the second file's record ends the attribute, the
      first file's attribute is freed; if not, the end of the second file's is never told. */
  lemma SharedAttribute(c: Caller, f: u16, g: u16, a: u16, x: seq<byte>, y: seq<byte>, d: seq<byte>, e: seq<byte>, eoa: bool)
    requires f != g && a >= ATTR_APP_START
    requires !c.ignores(f, x) && !c.ignores(g, y)
    ensures var items := [Header, Name(f, x), Name(g, y), Rec(f, a, false, d), Rec(g, a, eoa, e)];
      (eoa ==> FreesIn(c, UNTRACKED, items)) && (!eoa && c.wants(a) ==> StrandsIn(c, UNTRACKED, items))
  {
    var items := [Header, Name(f, x), Name(g, y), Rec(f, a, false, d), Rec(g, a, eoa, e)];
    var t := TwoOpen(f, g);
    var t1 := Track(t.open, Cached(f, a), {(f, a)}, {(f, a)});
    assert TrackItem(c, t, items[3]) == t1;
    assert Confuses(t1, items[4]);
    StartsTwo(c, f, g, x, y, items[3..]);
    Peel(c, t, items[3], [items[4]]);
    Peel(c, t1, items[4], []);
    assert items[3..] == [items[3]] + [items[4]];
    if !eoa && c.wants(a) {
      var t2 := TrackItem(c, t1, items[4]);
      assert (g, a) in t2.begun && (g, a) !in t2.own;
      assert Stranded(c, t2, g);
    }
  }

  /** The track once files f and g are open. */
  function TwoOpen(f: u16, g: u16): Track {
    Track(map[f := false, g := false], NoCache, {}, {})
  }

  /** One item at a time. */
  lemma Peel(c: Caller, t: Track, item: Item, rest: seq<Item>)
    ensures var t1 := TrackItem(c, t, item);
      && (FreesIn(c, t, [item] + rest) <==> (Confuses(t, item) && item.eoa) || FreesIn(c, t1, rest))
      && (FillsIn(c, t, [item] + rest) <==> (Confuses(t, item) && c.wants(item.attrid) && item.data != []) || FillsIn(c, t1, rest))
      && (StrandsIn(c, t, [item] + rest) <==>
            (ClosesFile(t, item) && Stranded(c, t, item.filenum)) || StrandsIn(c, t1, rest))
  {
    assert ([item] + rest)[1..] == rest;
  }

  lemma StartsTwo(c: Caller, f: u16, g: u16, x: seq<byte>, y: seq<byte>, rest: seq<Item>)
    requires f != g && !c.ignores(f, x) && !c.ignores(g, y)
    ensures var items := [Header, Name(f, x), Name(g, y)] + rest;
      && (FreesIn(c, UNTRACKED, items) <==> FreesIn(c, TwoOpen(f, g), rest))
      && (FillsIn(c, UNTRACKED, items) <==> FillsIn(c, TwoOpen(f, g), rest))
      && (StrandsIn(c, UNTRACKED, items) <==> StrandsIn(c, TwoOpen(f, g), rest))
  {
    var t1 := TrackItem(c, UNTRACKED, Name(f, x));
    assert t1 == Track(map[f := false], NoCache, {}, {});
    assert TrackItem(c, t1, Name(g, y)) == TwoOpen(f, g);
    Peel(c, UNTRACKED, Header, [Name(f, x), Name(g, y)] + rest);
    Peel(c, UNTRACKED, Name(f, x), [Name(g, y)] + rest);
    Peel(c, t1, Name(g, y), rest);
    assert [Header] + ([Name(f, x), Name(g, y)] + rest) == [Header, Name(f, x), Name(g, y)] + rest;
    assert [Name(f, x)] + ([Name(g, y)] + rest) == [Name(f, x), Name(g, y)] + rest;
  }

  /** Two open files whose records of one attribute alternate, with the ends in the same order: the
      second file's first record is taken for the first file's attribute, and yet nothing is freed and
      nothing stranded.  So it is read right under minimum sizes of at most one byte, and not always
      right if that record has data that is wanted. */
  lemma MistakenButRight(c: Caller, f: u16, g: u16, a: u16, x: seq<byte>, y: seq<byte>, d: seq<byte>, e: seq<byte>, d1: seq<byte>, e1: seq<byte>)
    requires f != g && a >= ATTR_APP_START
    requires !c.ignores(f, x) && !c.ignores(g, y)
    ensures var items := [Header, Name(f, x), Name(g, y), Rec(f, a, false, d), Rec(g, a, false, e), Rec(f, a, true, d1), Rec(g, a, true, e1)];
      && !FreesIn(c, UNTRACKED, items) && !StrandsIn(c, UNTRACKED, items)
      && (FillsIn(c, UNTRACKED, items) <==> c.wants(a) && e != [])
  {
    var items := [Header, Name(f, x), Name(g, y), Rec(f, a, false, d), Rec(g, a, false, e), Rec(f, a, true, d1), Rec(g, a, true, e1)];
    var t := TwoOpen(f, g);
    var t1 := Track(t.open, Cached(f, a), {(f, a)}, {(f, a)});
    var t2 := Track(t.open, Cached(f, a), {(f, a), (g, a)}, {(f, a)});
    var t3 := Track(t.open, NoCache, {(g, a)}, {});
    var t4 := Track(t.open, NoCache, {}, {});
    assert TrackItem(c, t, items[3]) == t1;
    assert TrackItem(c, t1, items[4]) == t2;
    assert TrackItem(c, t2, items[5]) == t3;
    assert TrackItem(c, t3, items[6]) == t4;
    StartsTwo(c, f, g, x, y, items[3..]);
    assert items == [Header, Name(f, x), Name(g, y)] + items[3..];
    Peel(c, t, items[3], items[4..]);
    Peel(c, t1, items[4], items[5..]);
    Peel(c, t2, items[5], items[6..]);
    Peel(c, t3, items[6], []);
    assert items[3..] == [items[3]] + items[4..] && items[4..] == [items[4]] + items[5..];
    assert items[5..] == [items[5]] + items[6..] && items[6..] == [items[6]] + [];
  }

  lemma TailFrees(c: Caller, f: u16, g: u16, h: u16, a: u16, b: u16, x: seq<byte>, d: seq<byte>)
    requires f != g && g != h && f != h && a >= ATTR_APP_START && b >= ATTR_APP_START
    requires !c.ignores(g, x) && !c.ignores(h, x)
    ensures FreesIn(c, UNTRACKED, [Header, Name(g, x), Name(h, x), Rec(g, a, false, d), Rec(f, b, false, d), Rec(h, a, true, d)])
  {
    var data := [Rec(g, a, false, d), Rec(f, b, false, d), Rec(h, a, true, d)];
    var t := TwoOpen(g, h);
    var t1 := Track(t.open, Cached(g, a), {(g, a)}, {(g, a)});
    assert TrackItem(c, t, data[0]) == t1 && TrackItem(c, t1, data[1]) == t1 && Confuses(t1, data[2]);
    StartsTwo(c, g, h, x, x, data);
    Peel(c, t, data[0], data[1..]);
    Peel(c, t1, data[1], data[2..]);
    Peel(c, t1, data[2], []);
    assert data == [data[0]] + data[1..] && data[1..] == [data[1]] + data[2..] && data[2..] == [data[2]] + [];
    assert [Header, Name(g, x), Name(h, x)] + data
        == [Header, Name(g, x), Name(h, x), Rec(g, a, false, d), Rec(f, b, false, d), Rec(h, a, true, d)];
  }

  lemma OpensFile(c: Caller, st: ReaderState, item: Item, rest: seq<Item>)
    requires item.Header? || (item.attrid == ATTR_FILENAME && !Known(st, item.filenum))
    ensures Clashes(c, st, NoCache, [item] + rest) == Clashes(c, Step(c, st, item), NoCache, rest)
  {
    assert ([item] + rest)[1..] == rest;
  }

  lemma ThreeRecords(c: Caller, st: ReaderState, f: u16, g: u16, h: u16, a: u16, b: u16, d: seq<byte>)
    requires f != g && g != h && f != h && a != b
    requires a >= ATTR_APP_START && b >= ATTR_APP_START
    requires st.files == [FileState(h, false, []), FileState(g, false, []), FileState(f, false, [])]
    ensures !Clashes(c, st, NoCache, [Rec(g, a, false, d), Rec(f, b, false, d), Rec(h, a, true, d)])
  {
    var items := [Rec(g, a, false, d), Rec(f, b, false, d), Rec(h, a, true, d)];
    var st1 := Step(c, st, items[0]);
    assert FindFile(st.files, g) == 1;
    assert st1.files == [FileState(h, false, []), st1.files[1], FileState(f, false, [])] && st1.files[1].filenum == g;
    FindFileIs(st1.files, f, 2);
    var st2 := Step(c, st1, items[1]);
    assert items[2..][1..] == [] && items[1..][1..] == items[2..];
    assert !Clashes(c, st2, Cached(f, b), items[2..]);
    assert !Clashes(c, st1, Cached(g, a), items[1..]);
  }

  /** A full read in which no record is mistaken does not exclude that a read from an offset frees an
      attribute too early: here the full read's remembered attribute is replaced by one of the older
      file f, which the read from the second header never sees. */
  lemma ConfusedOnlyFromOffset(c: Caller, f: u16, g: u16, h: u16, a: u16, b: u16, x: seq<byte>, d: seq<byte>)
    requires f != g && g != h && f != h && a != b && a >= ATTR_APP_START && b >= ATTR_APP_START
    requires !c.ignores(f, x) && !c.ignores(g, x) && !c.ignores(h, x)
    ensures var items := [Header, Name(f, x), Header, Name(g, x), Name(h, x), Rec(g, a, false, d), Rec(f, b, false, d), Rec(h, a, true, d)];
      !Clashes(c, INITIAL, NoCache, items) && FreesIn(c, UNTRACKED, items[2..])
  {
    hide Clashes, FreesIn;
    var data := [Rec(g, a, false, d), Rec(f, b, false, d), Rec(h, a, true, d)];
    TailFrees(c, f, g, h, a, b, x, d);
    var st1 := Step(c, INITIAL, Name(f, x));
    assert st1.files == [FileState(f, false, [])];
    var st2 := Step(c, st1, Name(g, x));
    assert FindFile(st1.files, g) == 1 && st2.files == [FileState(g, false, []), FileState(f, false, [])];
    var st3 := Step(c, st2, Name(h, x));
    assert FindFile(st2.files, h) == 2;
    ThreeRecords(c, st3, f, g, h, a, b, d);
    OpensFile(c, st2, Name(h, x), data);
    OpensFile(c, st1, Name(g, x), [Name(h, x)] + data);
    OpensFile(c, st1, Header, [Name(g, x), Name(h, x)] + data);
    OpensFile(c, INITIAL, Name(f, x), [Header, Name(g, x), Name(h, x)] + data);
    OpensFile(c, INITIAL, Header, [Name(f, x), Header, Name(g, x), Name(h, x)] + data);
    assert [Name(g, x)] + ([Name(h, x)] + data) == [Name(g, x), Name(h, x)] + data;
    assert [Header] + ([Name(g, x), Name(h, x)] + data) == [Header, Name(g, x), Name(h, x)] + data;
    assert [Name(f, x)] + ([Header, Name(g, x), Name(h, x)] + data) == [Name(f, x), Header, Name(g, x), Name(h, x)] + data;
    assert [Header] + ([Name(f, x), Header, Name(g, x), Name(h, x)] + data)
        == [Header, Name(f, x), Header, Name(g, x), Name(h, x)] + data;
    var items := [Header, Name(f, x), Header, Name(g, x), Name(h, x), Rec(g, a, false, d), Rec(f, b, false, d), Rec(h, a, true, d)];
    assert items == [Header, Name(f, x), Header, Name(g, x), Name(h, x)] + data;
    assert items[2..] == [Header, Name(g, x), Name(h, x)] + data;
  }
}

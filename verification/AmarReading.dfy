/** Whole reads: what the joined callbacks are, for every input and every way it is cut and kept. */
module AmarReading {
  import opened AmarFormat
  import opened Text
  import opened AmarSemantics
  import opened AmarMachine
  import opened AmarDelivery
  import opened AmarRefinement

  // ---------- records taken for another file's attribute ----------

  /** A record that is taken for another file's attribute does no harm to the bytes if nothing is
      kept back: it is not the attribute's end, and the minimum size is no more than one byte, or it
      has no data, or nobody wants it. */
  predicate Harmless(c: Caller, hs: seq<Handling>, item: Item)
    requires Terminated(hs) && item.Rec?
  {
    !item.eoa && (!c.wants(item.attrid) || HandlingOf(hs, item.attrid).minSize <= 1 || item.data == [])
  }

  lemma {:induction false} SameAttr(m: Machine, p: Place)
    requires At(m, p)
    ensures Replace(m.files, p.k, m.files[p.k].attrs[p.j := AttrAt(m, p)]) == m.files
  {
    assert m.files[p.k].attrs[p.j := AttrAt(m, p)] == m.files[p.k].attrs;
  }

  /** The file with the record, and the attribute that it is taken for. */
  predicate Misplaced(hs: seq<Handling>, m: Machine, i: nat, p: Place)
    requires Terminated(hs)
  {
    && i < |m.files| && !m.files[i].ignore && At(m, p)
    && GoodAttr(hs, AttrAt(m, p)) && AttrAt(m, p).handling.callback
  }

  lemma {:induction false} MistakenHunk(hs: seq<Handling>, c: Caller, m: Machine, d: Delivery, i: nat, p: Place, data: seq<byte>)
    requires Terminated(hs) && Tracks(hs, m.files, Join(m.events), d) && Misplaced(hs, m, i, p) && c.wants(AttrAt(m, p).attrid)
    requires AttrAt(m, p).handling.minSize <= 1 || data == []
    ensures var m' := HunkAt(m, p, m.files[i].filenum, data, false);
      && m'.files == m.files && m'.cache == m.cache
      && Tracks(hs, m.files, Join(m'.events), Mistaken(c, d, m.files[i].filenum, AttrAt(m, p).attrid, data))
  {
    var js, f, x := Join(m.events), m.files[i].filenum, AttrAt(m, p);
    var h := HunkHandled(f, x, data, false);
    GoodHandling(hs, x);
    hide HandlingOf, JoinOn, HunkHandled, Pend, SamePend, Tracks, AddData, GoodAttr, HasState, Stray;
    HunkJoins(hs, js, f, x, data, false);
    JoinOnMore(NOTHING_YET, m.events, h.calls);
    SameAttr(m, p);
    Astray(hs, c, m.files, js, JoinOn(js, h.calls), d, i, x.attrid, data);
  }

  lemma {:induction false} MistakenTwice(c: Caller, d: Delivery, f: u16, a: u16, x: seq<byte>, y: seq<byte>)
    requires Receives(d.st, f)
    ensures Mistaken(c, Mistaken(c, d, f, a, x), f, a, y) == Mistaken(c, d, f, a, x + y)
  {
    var d1 := Mistaken(c, d, f, a, x);
    if HasState(d.st, f, a) {
      AddDataInParts(c, d.st, f, a, false, x, y);
      StateStays(c, d.st, f, a, x);
    } else {
      assert Stray(d1, f, a) == Stray(d, f, a) + x;
      assert Stray(d, f, a) + x + y == Stray(d, f, a) + (x + y);
    }
  }

  lemma {:induction false} StateStays(c: Caller, st: ReaderState, f: u16, a: u16, x: seq<byte>)
    requires Receives(st, f) && HasState(st, f, a)
    ensures HasState(AddData(c, st, f, a, false, x), f, a)
  {
    var i := FindFile(st.files, f);
    var st1 := AddData(c, st, f, a, false, x);
    FindFileIs(st1.files, f, i);
    FindAttrIs(st1.files[i].attrs, a, FindAttr(st.files[i].attrs, a));
  }

  lemma {:induction false} MistakenHunks(hs: seq<Handling>, c: Caller, m: Machine, d: Delivery, i: nat, p: Place, data: seq<byte>, n: nat)
    requires Terminated(hs) && Tracks(hs, m.files, Join(m.events), d) && Misplaced(hs, m, i, p) && c.wants(AttrAt(m, p).attrid)
    requires AttrAt(m, p).handling.minSize <= 1 || data == []
    ensures var m' := Hunks(m, p, m.files[i].filenum, data, false, n);
      && m'.files == m.files
      && Tracks(hs, m.files, Join(m'.events), Mistaken(c, d, m.files[i].filenum, AttrAt(m, p).attrid, data))
  {
    hide HandlingOf, HunkAt, Tracks, Mistaken, JoinOn, GoodAttr;
    var f, a := m.files[i].filenum, AttrAt(m, p).attrid;
    if |data| <= n {
      MistakenHunk(hs, c, m, d, i, p, data);
    } else {
      MistakenHunk(hs, c, m, d, i, p, data[..n]);
      MistakenHunk(hs, c, HunkAt(m, p, f, data[..n], false), Mistaken(c, d, f, a, data[..n]), i, p, data[n..]);
      OpenReceives(hs, m, d, i);
      MistakenTwice(c, d, f, a, data[..n], data[n..]);
      assert data[..n] + data[n..] == data;
    }
  }

  /** A record that is taken for the remembered attribute, of another file, and does not end it. */
  lemma {:induction false} OtherRecordTracks(hs: seq<Handling>, c: Caller, m: Machine, d: Delivery, i: nat, k: nat, a: u16, data: seq<byte>, n: nat)
    requires Terminated(hs) && Tracks(hs, m.files, Join(m.events), d) && i < |m.files| && k < |m.files|
    requires !m.files[i].ignore && !Stateless(m, k, a) && (c.wants(a) <==> HandlingOf(hs, a).callback)
    requires Harmless(c, hs, Rec(m.files[i].filenum, a, false, data))
    ensures var m' := WholeRecord(hs, m, k, m.files[i].filenum, a, false, data, n);
      && m'.cache == Cached(m.files[k].filenum, a)
      && Tracks(hs, m'.files, Join(m'.events), if c.wants(a) then Mistaken(c, d, m.files[i].filenum, a, data) else d)
  {
    var p := Place(k, FindBuf(m.files[k].attrs, a));
    assert GoodAttr(hs, AttrAt(m, p)) by { assert GoodFile(hs, m.files[k]); }
    GoodHandling(hs, AttrAt(m, p));
    hide HandlingOf, Hunks, Tracks, Mistaken, JoinOn, GoodAttr, FindBuf;
    if c.wants(a) {
      MistakenHunks(hs, c, m, d, i, p, data, n);
    }
  }

  // ---------- finishing and starting files ----------

  /** Of the attributes of one file, those with a callback were ended. */
  predicate Closed(hs: seq<Handling>, js: Joined, js': Joined, f: u16, attrs: seq<AttrBuf>)
    requires Terminated(hs)
  {
    && (forall g: u16, b: u16 | g != f || FindBuf(attrs, b) == |attrs| :: Pend(js', g, b) == Pend(js, g, b))
    && (forall b: u16 | FindBuf(attrs, b) < |attrs| :: Pend(js', f, b) == if HandlingOf(hs, b).callback then [] else Pend(js, f, b))
  }

  lemma {:induction false} EndJoins(hs: seq<Handling>, c: Caller, js: Joined, f: u16, x: AttrBuf)
    requires Terminated(hs) && GoodAttr(hs, x) && (c.wants(x.attrid) <==> HandlingOf(hs, x.attrid).callback)
    ensures var js' := JoinOn(js, EndCall(f, x, true));
      && SamePend(js, js', f, x.attrid)
      && Pend(js', f, x.attrid) == (if HandlingOf(hs, x.attrid).callback then [] else Pend(js, f, x.attrid))
      && js'.out == js.out + if c.wants(x.attrid) then [Attr(f, x.attrid, Pend(js, f, x.attrid) + x.buf, true)] else []
  {
    var calls := EndCall(f, x, true);
    if calls != [] {
      assert calls[1..] == [];
    }
  }

  lemma {:induction false} CloseFirst(c: Caller, f: u16, x: AttrState, rest: seq<AttrState>)
    ensures CloseAttrs(c, f, [x] + rest) == (if c.wants(x.attrid) then [Attr(f, x.attrid, x.data, true)] else []) + CloseAttrs(c, f, rest)
  {
    assert ([x] + rest)[1..] == rest;
  }

  lemma {:induction false} EndCallsJoin(hs: seq<Handling>, c: Caller, js: Joined, f: u16, attrs: seq<AttrBuf>)
    requires Terminated(hs) && GoodFile(hs, OpenFile(0, false, attrs))
    requires forall a :: c.wants(a) <==> HandlingOf(hs, a).callback
    ensures var js' := JoinOn(js, EndCalls(f, attrs));
      Closed(hs, js, js', f, attrs) && js'.out == js.out + CloseAttrs(c, f, AbsAttrs(js, f, attrs))
    decreases |attrs|
  {
    if attrs == [] {
      assert AbsAttrs(js, f, []) == [];
    } else {
      var x, rest := attrs[0], attrs[1..];
      assert attrs == [x] + rest;
      var js1 := JoinOn(js, EndCall(f, x, true));
      var js2 := JoinOn(js1, EndCalls(f, rest));
      assert GoodAttr(hs, x) && GoodFile(hs, OpenFile(0, false, rest));
      assert forall j | 0 <= j < |rest| :: rest[j].attrid != x.attrid;
      hide HandlingOf, JoinOn, Pend, GoodAttr, GoodFile, FindBuf, EndCall, CloseAttrs, AbsAttrs, Closed;
      EndJoins(hs, c, js, f, x);
      EndCallsJoin(hs, c, js1, f, rest);
      JoinOnMore(js, EndCall(f, x, true), EndCalls(f, rest));
      ClosedFirst(hs, js, js1, js2, f, x, rest);
      RestView(js, js1, f, x, rest);
      CloseFirst(c, f, AttrState(x.attrid, Pend(js, f, x.attrid) + x.buf), AbsAttrs(js, f, rest));
      Regroup(js.out, if c.wants(x.attrid) then [Attr(f, x.attrid, Pend(js, f, x.attrid) + x.buf, true)] else [], CloseAttrs(c, f, AbsAttrs(js, f, rest)));
    }
  }

  lemma {:induction false} Regroup<T>(x: seq<T>, y: seq<T>, z: seq<T>)
    ensures x + y + z == x + (y + z)
  {}

  lemma {:induction false} RestView(js: Joined, js1: Joined, f: u16, x: AttrBuf, rest: seq<AttrBuf>)
    requires SamePend(js, js1, f, x.attrid) && forall j | 0 <= j < |rest| :: rest[j].attrid != x.attrid
    ensures AbsAttrs(js1, f, rest) == AbsAttrs(js, f, rest)
    ensures AbsAttrs(js, f, [x] + rest) == [AttrState(x.attrid, Pend(js, f, x.attrid) + x.buf)] + AbsAttrs(js, f, rest)
  {
    hide Pend;
  }

  lemma {:induction false} ClosedFirst(hs: seq<Handling>, js: Joined, js1: Joined, js2: Joined, f: u16, x: AttrBuf, rest: seq<AttrBuf>)
    requires Terminated(hs) && SamePend(js, js1, f, x.attrid) && Closed(hs, js1, js2, f, rest)
    requires Pend(js1, f, x.attrid) == if HandlingOf(hs, x.attrid).callback then [] else Pend(js, f, x.attrid)
    requires forall j | 0 <= j < |rest| :: rest[j].attrid != x.attrid
    ensures Closed(hs, js, js2, f, [x] + rest)
  {
    hide HandlingOf, Pend;
    var attrs := [x] + rest;
    FindBufIs(rest, x.attrid, |rest|);
    forall b: u16 ensures FindBuf(attrs, b) == if b == x.attrid then 0 else 1 + FindBuf(rest, b) {
      assert attrs[1..] == rest;
    }
  }

  /** Finishing a file: its attributes are reported in the order of its list, then the file. */
  lemma {:induction false} FileFinishes(hs: seq<Handling>, c: Caller, m: Machine, d: Delivery, i: nat, truncated: bool)
    requires Terminated(hs) && Tracks(hs, m.files, Join(m.events), d) && i < |m.files|
    requires forall a :: c.wants(a) <==> HandlingOf(hs, a).callback
    ensures var m' := FileFinished(m, i, truncated);
      Tracks(hs, m'.files, Join(m'.events),
             d.(st := ReaderState(Without(d.st.files, i), d.st.out + CloseFile(c, d.st.files[i], truncated))))
  {
    var js, x := Join(m.events), m.files[i];
    var js1 := JoinOn(js, EndCalls(x.filenum, x.attrs));
    var js' := Join(FileFinished(m, i, truncated).events);
    assert GoodFile(hs, x);
    var d' := d.(st := ReaderState(Without(d.st.files, i), d.st.out + CloseFile(c, d.st.files[i], truncated)));
    hide HandlingOf, JoinOn, Pend, GoodFile, GoodFiles, EndCalls, CloseAttrs, Closed, Without, Strays, AbsFiles;
    assert d.st.files[i] == AbsFile(js, x) by { ViewAt(js, m.files, i); }
    EndCallsJoin(hs, c, js, x.filenum, x.attrs);
    FinishJoins(m, i, truncated, js, js1);
    StillClosed(hs, js, js1, js', x.filenum, x.attrs);
    Regroup(js.out, CloseAttrs(c, x.filenum, AbsAttrs(js, x.filenum, x.attrs)), if x.ignore then [] else [Finished(x.filenum, truncated)]);
    FinishedFiles(hs, m.files, i, js, js');
    SameStrays(d, d');
    FinishedStrays(hs, m.files, i, js, js', d, d');
  }

  lemma {:induction false} ViewAt(js: Joined, xs: seq<OpenFile>, i: nat)
    requires i < |xs|
    ensures AbsFiles(js, xs)[i] == AbsFile(js, xs[i])
  {}

  lemma {:induction false} StillClosed(hs: seq<Handling>, js: Joined, js1: Joined, js': Joined, f: u16, attrs: seq<AttrBuf>)
    requires Terminated(hs) && Closed(hs, js, js1, f, attrs) && js'.pending == js1.pending
    ensures Closed(hs, js, js', f, attrs)
  {
    SamePending(js1, js');
    hide HandlingOf, Pend, FindBuf;
  }

  lemma {:induction false} FinishJoins(m: Machine, i: nat, truncated: bool, js: Joined, js1: Joined)
    requires i < |m.files| && js == Join(m.events) && js1 == JoinOn(js, EndCalls(m.files[i].filenum, m.files[i].attrs))
    ensures var js' := Join(FileFinished(m, i, truncated).events);
      && js'.pending == js1.pending
      && js'.out == js1.out + if m.files[i].ignore then [] else [Finished(m.files[i].filenum, truncated)]
  {
    var x := m.files[i];
    var last := if x.ignore then [] else [FinishCall(x.filenum, truncated)];
    JoinOnMore(NOTHING_YET, m.events, FinishCalls(x, truncated));
    JoinOnMore(js, EndCalls(x.filenum, x.attrs), last);
    assert last != [] ==> last[1..] == [];
    hide EndCalls;
  }

  lemma {:induction false} WithoutGood(hs: seq<Handling>, xs: seq<OpenFile>, i: nat)
    requires Terminated(hs) && GoodFiles(hs, xs) && i < |xs|
    ensures GoodFiles(hs, Without(xs, i))
  {
    hide GoodFile;
  }

  lemma {:induction false} FinishedFiles(hs: seq<Handling>, xs: seq<OpenFile>, i: nat, js: Joined, js': Joined)
    requires Terminated(hs) && GoodFiles(hs, xs) && i < |xs|
    requires Closed(hs, js, js', xs[i].filenum, xs[i].attrs)
    ensures GoodFiles(hs, Without(xs, i))
    ensures AbsFiles(js', Without(xs, i)) == Without(AbsFiles(js, xs), i)
  {
    hide HandlingOf, GoodFile, Pend;
    WithoutGood(hs, xs, i);
    var ys := Without(xs, i);
    assert forall k | 0 <= k < |ys| :: ys[k].filenum != xs[i].filenum;
    assert forall g: u16, b: u16 | g != xs[i].filenum :: Pend(js', g, b) == Pend(js, g, b);
    hide GoodFiles, Closed;
    AbsFilesFrame(js, js', ys);
  }

  lemma {:induction false} HoldsWithout(hs: seq<Handling>, xs: seq<OpenFile>, i: nat, g: u16, b: u16)
    requires Terminated(hs) && GoodFiles(hs, xs) && i < |xs|
    ensures Holds(Without(xs, i), g, b) <==> g != xs[i].filenum && Holds(xs, g, b)
  {
    hide GoodFile;
    var ys, k := Without(xs, i), FindOpen(xs, g);
    if g == xs[i].filenum {
      FindOpenIs(ys, g, |ys|);
    } else if k < |xs| {
      WithoutKeeps(xs, i, k);
      FindOpenIs(ys, g, if k < i then k else k - 1);
    } else {
      FindOpenIs(ys, g, |ys|);
    }
  }

  lemma {:induction false} FinishedStrays(hs: seq<Handling>, xs: seq<OpenFile>, i: nat, js: Joined, js': Joined, d: Delivery, d': Delivery)
    requires Terminated(hs) && GoodFiles(hs, xs) && i < |xs| && Strays(hs, xs, js, d)
    requires Closed(hs, js, js', xs[i].filenum, xs[i].attrs)
    requires forall g: u16, b: u16 :: Stray(d', g, b) == Stray(d, g, b)
    ensures Strays(hs, Without(xs, i), js', d')
  {
    var f := xs[i].filenum;
    Others(hs, xs, i);
    hide HandlingOf, Pend, Stray, GoodFiles, Without, FindBuf, Holds, FindOpen, Strays;
    forall g: u16, b: u16
      ensures Pend(js', g, b) != [] ==> HandlingOf(hs, b).callback
      ensures Stray(d', g, b) == if Holds(Without(xs, i), g, b) then [] else Pend(js', g, b)
    {
      HoldsWithout(hs, xs, i, g, b);
      HoldsHere(xs, i, b);
      StrayAt(hs, xs, js, d, g, b);
    }
  }

  lemma {:induction false} KnownFinishes(hs: seq<Handling>, c: Caller, m: Machine, d: Delivery, f: u16, truncated: bool)
    requires Terminated(hs) && Refines(hs, m, d)
    requires forall a :: c.wants(a) <==> HandlingOf(hs, a).callback
    ensures Refines(hs, KnownFinished(m, f, truncated),
                    Delivery(CloseFound(c, d.st, f, truncated), d.stray, if Known(d.st, f) then NoCache else d.cache))
    ensures !Known(CloseFound(c, d.st, f, truncated), f)
  {
    var i := FindOpen(m.files, f);
    var d' := Delivery(CloseFound(c, d.st, f, truncated), d.stray, if Known(d.st, f) then NoCache else d.cache);
    ViewOf(Join(m.events), m.files, f, 0);
    FinishSound(m, f, truncated);
    if i < |m.files| {
      GoneAfter(hs, m.files, i, Join(m.events));
      hide HandlingOf, JoinOn, FinishCalls, Tracks, CloseFile, Sound;
      FileFinishes(hs, c, m, d, i, truncated);
      Retagged(hs, FileFinished(m, i, truncated), d.(st := d'.st), NoCache);
    }
  }

  lemma {:induction false} GoneAfter(hs: seq<Handling>, xs: seq<OpenFile>, i: nat, js: Joined)
    requires Terminated(hs) && GoodFiles(hs, xs) && i < |xs|
    ensures FindFile(Without(AbsFiles(js, xs), i), xs[i].filenum) == |xs| - 1
  {
    hide GoodFile, AbsAttrs;
    var files := Without(AbsFiles(js, xs), i);
    assert forall k | 0 <= k < |files| :: files[k] == AbsFiles(js, xs)[if k < i then k else k + 1];
    FindFileIs(files, xs[i].filenum, |files|);
  }

  lemma {:induction false} FileStarts(hs: seq<Handling>, c: Caller, ignores: Ignores, m: Machine, d: Delivery, f: u16, name: seq<byte>)
    requires Terminated(hs) && Refines(hs, m, d) && !Known(d.st, f) && c.ignores(f, name) == ignores(f, name)
    ensures Refines(hs, FileStarted(ignores, m, f, name), d.(st := Start(c, d.st, f, name)))
  {
    var js, xs := Join(m.events), m.files;
    var ys := [OpenFile(f, ignores(f, name), [])] + xs;
    var js' := Join(m.events + [StartCall(f, name)]);
    JoinOnMore(NOTHING_YET, m.events, [StartCall(f, name)]);
    assert js' == js.(out := js.out + [Started(f, name)]);
    ViewOf(js, xs, f, 0);
    assert FindOpen(xs, f) == |xs|;
    StartSound(ignores, m, f, name);
    StartedView(hs, xs, js, js', f, ignores(f, name));
    hide HandlingOf, Pend, JoinOn, GoodFile, GoodFiles, Stray, Sound;
    forall g: u16, b: u16 ensures Holds(ys, g, b) <==> Holds(xs, g, b) {
      HoldsStarted(xs, f, ignores(f, name), g, b);
    }
    SameStrays(d, d.(st := Start(c, d.st, f, name)));
    assert forall g: u16, b: u16 :: Pend(js', g, b) == Pend(js, g, b) by { SamePending(js, js'); }
  }

  lemma {:induction false} SamePending(js: Joined, js': Joined)
    requires js'.pending == js.pending
    ensures forall g: u16, b: u16 :: Pend(js', g, b) == Pend(js, g, b)
  {}

  lemma {:induction false} HoldsStarted(xs: seq<OpenFile>, f: u16, ignore: bool, g: u16, b: u16)
    requires FindOpen(xs, f) == |xs|
    ensures Holds([OpenFile(f, ignore, [])] + xs, g, b) <==> Holds(xs, g, b)
  {
    var ys := [OpenFile(f, ignore, [])] + xs;
    assert ys[1..] == xs;
  }

  lemma {:induction false} StartedView(hs: seq<Handling>, xs: seq<OpenFile>, js: Joined, js': Joined, f: u16, ignore: bool)
    requires Terminated(hs) && GoodFiles(hs, xs) && FindOpen(xs, f) == |xs| && js'.pending == js.pending
    ensures var ys := [OpenFile(f, ignore, [])] + xs;
      GoodFiles(hs, ys) && AbsFiles(js', ys) == [FileState(f, ignore, [])] + AbsFiles(js, xs)
  {
    hide GoodAttr, HandlingOf;
    SamePending(js, js');
    AbsFilesFrame(js, js', xs);
    assert AbsAttrs(js', f, []) == [];
  }

  // ---------- one item ----------

  /** An item that frees no attribute and does no harm to the bytes. */
  predicate Gentle(c: Caller, hs: seq<Handling>, st: ReaderState, cache: Cache, item: Item)
    requires Terminated(hs)
  {
    ItemClashes(st, cache, item) ==> Harmless(c, hs, item)
  }

  /** The reader takes a record for another file's attribute exactly where the reference state and
      the remembered attribute say so. */
  lemma {:induction false} MistakesAre(hs: seq<Handling>, m: Machine, d: Delivery, f: u16, a: u16)
    requires Terminated(hs) && Refines(hs, m, d)
    ensures Mistakes(m, f, a) <==> Clash(d.st, d.cache, f, a)
    ensures Accepts(m, f) <==> Receives(d.st, f)
  {
    ViewOf(Join(m.events), m.files, f, a);
  }

  lemma {:induction false} AppTracks(hs: seq<Handling>, c: Caller, m: Machine, d: Delivery, f: u16, a: u16, eoa: bool, data: seq<byte>, n: nat)
    requires Terminated(hs) && Refines(hs, m, d) && a >= ATTR_APP_START
    requires forall b :: c.wants(b) <==> HandlingOf(hs, b).callback
    requires Gentle(c, hs, d.st, d.cache, Rec(f, a, eoa, data))
    ensures var m' := AppRecord(hs, m, f, a, eoa, data, n); var d' := DeliverData(c, d, f, a, eoa, data);
      Tracks(hs, m'.files, Join(m'.events), d') && m'.cache == d'.cache
  {
    MistakesAre(hs, m, d, f, a);
    if Accepts(m, f) {
      AppIs(hs, m, f, a, eoa, data, n);
      hide HandlingOf, JoinOn, Tracks, AppRecord, WholeRecord, AddData, Mistaken, Sound, Receives, Clash, FindOpen, Accepts, Mistakes, Owner;
      var k := FindOpen(m.files, Owner(m, f, a));
      if Mistakes(m, f, a) {
        OtherRecordTracks(hs, c, m, d, FindOpen(m.files, f), k, a, data, n);
      } else {
        OwnRecordTracks(hs, c, m, d, k, f, a, eoa, data, n);
      }
    }
  }

  lemma {:induction false} AppIs(hs: seq<Handling>, m: Machine, f: u16, a: u16, eoa: bool, data: seq<byte>, n: nat)
    requires Terminated(hs) && Sound(m) && Accepts(m, f)
    ensures var i, k := FindOpen(m.files, f), FindOpen(m.files, Owner(m, f, a));
      && AppRecord(hs, m, f, a, eoa, data, n) == (if k < |m.files| then WholeRecord(hs, m, k, f, a, eoa, data, n) else m)
      && i < |m.files| && m.files[i].filenum == f && !m.files[i].ignore
      && k < |m.files| && m.files[k].filenum == Owner(m, f, a)
      && (if Mistakes(m, f, a) then m.cache == Cached(Owner(m, f, a), a) && !Stateless(m, k, a) else k == i)
  {
    hide HandlingOf, WholeRecord;
    OwnerIsOpen(m, f, a);
  }

  lemma {:induction false} TurnRefines(hs: seq<Handling>, ignores: Ignores, c: Caller, m: Machine, d: Delivery, item: Item, n: nat)
    requires Terminated(hs) && Refines(hs, m, d) && Serves(c, hs, ignores)
    requires Gentle(c, hs, d.st, d.cache, item) && KnownAttrids([item])
    ensures Refines(hs, Turn(hs, ignores, m, item, n), Deliver(c, d, item))
  {
    assert [item][0] == item;
    SoundTurn(hs, ignores, m, item, n);
    hide HandlingOf, JoinOn, Tracks, KnownFinished, FileStarted, AppRecord, CloseFound, Start, DeliverData, Sound, Clash;
    match item
    case Header =>
    case Rec(f, a, eoa, data) =>
      if a == ATTR_EOF {
        KnownFinishes(hs, c, m, d, f, false);
      } else if a == ATTR_FILENAME {
        KnownFinishes(hs, c, m, d, f, true);
        var d1 := Delivery(CloseFound(c, d.st, f, true), d.stray, if Known(d.st, f) then NoCache else d.cache);
        FileStarts(hs, c, ignores, KnownFinished(m, f, true), d1, f, data);
      } else {
        AppTracks(hs, c, m, d, f, a, eoa, data, n);
      }
  }

  // ---------- closing what is open ----------

  /** With all open files closed, only what is stray was delivered without an end. */
  lemma {:induction false} AllFinish(hs: seq<Handling>, c: Caller, m: Machine, d: Delivery)
    requires Terminated(hs) && Tracks(hs, m.files, Join(m.events), d)
    requires forall a :: c.wants(a) <==> HandlingOf(hs, a).callback
    ensures var js := Join(AllFinished(m).events);
      && js.out == d.st.out + CloseAll(c, d.st.files)
      && forall f: u16, a: u16 :: Pend(js, f, a) == Stray(d, f, a)
    decreases |m.files|
  {
    if m.files == [] {
      assert d.st.out + [] == d.st.out;
      hide JoinOn;
    } else {
      var m1 := FileFinished(m, 0, true);
      var d1 := d.(st := ReaderState(Without(d.st.files, 0), d.st.out + CloseFile(c, d.st.files[0], true)));
      assert Without(d.st.files, 0) == d.st.files[1..];
      hide HandlingOf, JoinOn, Pend, CloseFile, Without, Tracks, FinishCalls;
      FileFinishes(hs, c, m, d, 0, true);
      AllFinish(hs, c, m1, d1);
      Regroup(d.st.out, CloseFile(c, d.st.files[0], true), CloseAll(c, d.st.files[1..]));
      SameStrays(d, d1);
    }
  }

  // ---------- the end of the input ----------

  /** The record in which the input ends is that of an attribute in a single record, without a state,
      and enough of it was in the buffer for a fragment: it is handed over and its end never comes. */
  predicate NeverEnded(hs: seq<Handling>, st: ReaderState, stop: Stop, k: nat)
    requires Terminated(hs)
  {
    stop.Partial? && stop.eoa && !HasState(st, stop.filenum, stop.attrid) && HandlingOf(hs, stop.attrid).minSize <= k
  }

  /** What was in the buffer, of the data in which the input ends. */
  function PartOf(stop: Stop, k: nat): seq<byte>
    requires stop.Partial?
  {
    if k < |stop.data| then stop.data[..k] else stop.data
  }

  /** Where the reader stands at the end of the input, before it closes the open files. */
  function StopsAt(c: Caller, hs: seq<Handling>, st: ReaderState, stop: Stop, k: nat): ReaderState
    requires Terminated(hs)
  {
    match stop
    case Padding(f) => CloseFound(c, st, f, true)
    case EmptyName(f) => CloseFound(c, st, f, true)
    case NameWithoutEoa(f) => CloseFound(c, st, f, true)
    case Partial(f, a, eoa, data) =>
      if NeverEnded(hs, st, stop, |PartOf(stop, k)|) then st else AddData(c, st, f, a, false, PartOf(stop, k))
    case _ => st
  }

  /** What was handed over of an attribute whose end never came. */
  function Loose(hs: seq<Handling>, st: ReaderState, stop: Stop, k: nat, f: u16, a: u16): seq<byte>
    requires Terminated(hs)
  {
    if stop.Partial? && f == stop.filenum && a == stop.attrid && NeverEnded(hs, st, stop, |PartOf(stop, k)|)
    then PartOf(stop, k) else []
  }

  function HeldBy(st: ReaderState, f: u16, a: u16): seq<byte> {
    if HasState(st, f, a) then st.files[FindFile(st.files, f)].attrs[FindAttr(st.files[FindFile(st.files, f)].attrs, a)].data
    else []
  }

  /** What a read delivers, given the reference reader's result for the same bytes.  k tells how much
      of a cut-off record was in the buffer.  When a read is given up, what was handed over of an
      attribute that has not ended begins what there was of it. */
  ghost predicate Reports(c: Caller, hs: seq<Handling>, final: Final, k: nat, x: Delivered)
    requires Terminated(hs)
  {
    var js := Join(x.events);
    match final.end
    case NoHeader => x == Delivered([], NotAnArchive)
    case Ended(stop) =>
      var s := StopsAt(c, hs, final.st, stop, k);
      if IsError(stop) then
        x.result == Error(stop) && js.out == s.out && forall f: u16, a: u16 :: Pend(js, f, a) <= HeldBy(s, f, a)
      else
        && x.result == Success && js.out == s.out + CloseAll(c, s.files)
        && forall f: u16, a: u16 :: Pend(js, f, a) == Loose(hs, final.st, stop, k, f, a)
  }

  lemma {:induction false} HandedOver(hs: seq<Handling>, m: Machine, d: Delivery, f: u16, a: u16)
    requires Terminated(hs) && Tracks(hs, m.files, Join(m.events), d) && Stray(d, f, a) == []
    ensures Pend(Join(m.events), f, a) <= HeldBy(d.st, f, a)
  {
    ViewOf(Join(m.events), m.files, f, a);
    StrayAt(hs, m.files, Join(m.events), d, f, a);
    if Holds(m.files, f, a) {
      FoundAttr(Join(m.events), f, m.files[FindOpen(m.files, f)].attrs, a);
    }
  }

  /** The end of the input inside data that is wanted, of an attribute with a state or one that gets
      a state now. */
  lemma {:induction false} CutHunk(hs: seq<Handling>, c: Caller, m: Machine, d: Delivery, k: nat, a: u16, part: seq<byte>)
    requires Terminated(hs) && Tracks(hs, m.files, Join(m.events), d) && k < |m.files| && !m.files[k].ignore
    requires c.wants(a) && HandlingOf(hs, a).callback && d.stray == map[]
    ensures var s := SetUp(hs, m, k, a); var f := m.files[k].filenum; var m' := HunkAt(s.m, s.p, f, part, false);
      Tracks(hs, m'.files, Join(m'.events), d.(st := AddData(c, d.st, f, a, false, part)))
  {
    SetUpFinds(hs, m, k, a);
    hide HandlingOf, JoinOn, Tracks, AddData, HunkAt, FindBuf;
    if Stateless(m, k, a) {
      CutFresh(hs, c, m, d, k, a, part);
    } else {
      var s := SetUp(hs, m, k, a);
      StatedFacts(hs, m, d, s.p);
      HunkTracks(hs, c, m, d, s.p, m.files[k].filenum, part);
    }
  }

  lemma {:induction false} CutFresh(hs: seq<Handling>, c: Caller, m: Machine, d: Delivery, k: nat, a: u16, part: seq<byte>)
    requires Terminated(hs) && Tracks(hs, m.files, Join(m.events), d) && k < |m.files| && !m.files[k].ignore
    requires c.wants(a) && HandlingOf(hs, a).callback && d.stray == map[] && Stateless(m, k, a)
    ensures var s := SetUp(hs, m, k, a); var f := m.files[k].filenum; var m' := HunkAt(s.m, s.p, f, part, false);
      Tracks(hs, m'.files, Join(m'.events), d.(st := AddData(c, d.st, f, a, false, part)))
  {
    var f, s := m.files[k].filenum, SetUp(hs, m, k, a);
    var d1 := Delivery(AddData(c, d.st, f, a, false, Stray(d, f, a)), d.stray - {(f, a)}, d.cache);
    assert d.stray - {(f, a)} == d.stray && Stray(d, f, a) == [] && [] + part == part;
    hide HandlingOf, JoinOn, Tracks, AddData, HunkAt, SetUp, FindBuf, Stateless, Stray;
    SetUpTracks(hs, c, m, d, k, a);
    SetUpFinds(hs, m, k, a);
    HunkTracks(hs, c, s.m, d1, s.p, f, part);
    OpenReceives(hs, m, d, k);
    AddDataInParts(c, d.st, f, a, false, [], part);
  }

  lemma {:induction false} CutFragment(hs: seq<Handling>, m: Machine, d: Delivery, k: nat, a: u16, part: seq<byte>)
    requires Terminated(hs) && Tracks(hs, m.files, Join(m.events), d) && k < |m.files|
    requires HandlingOf(hs, a).callback && d.stray == map[] && Stateless(m, k, a)
    ensures var f := m.files[k].filenum;
      Tracks(hs, m.files, Join(m.events + [FragmentCall(f, a, part, false, false)]), d.(stray := map[(f, a) := part]))
  {
    var f, js := m.files[k].filenum, Join(m.events);
    var call := FragmentCall(f, a, part, false, false);
    Others(hs, m.files, k);
    HoldsHere(m.files, k, a);
    JoinOnMore(NOTHING_YET, m.events, [call]);
    assert [call][1..] == [];
    assert Join(m.events + [call]) == JoinStep(js, call);
    assert d.stray[(f, a) := Stray(d, f, a) + part] == map[(f, a) := part] by { assert [] + part == part; }
    hide HandlingOf, JoinOn, Tracks;
    AstrayStateless(hs, m.files, js, JoinStep(js, call), d, k, a, part);
  }

  /** A parser's stop: data is cut off only of application records. */
  predicate ProperStop(stop: Stop) {
    stop.Partial? ==> stop.attrid >= ATTR_APP_START
  }

  lemma {:induction false} CutTracks(hs: seq<Handling>, c: Caller, m: Machine, d: Delivery, stop: Stop, n: nat)
    requires Terminated(hs) && Refines(hs, m, d) && d.stray == map[] && (forall a :: c.wants(a) <==> HandlingOf(hs, a).callback)
    requires stop.Partial? && ProperStop(stop) && Wanted(hs, m, stop.filenum, stop.attrid) && !Clash(d.st, d.cache, stop.filenum, stop.attrid)
    ensures c.wants(stop.attrid) && Receives(d.st, stop.filenum)
    ensures var m' := Stopping(hs, m, stop, n); var part := PartOf(stop, n);
      Tracks(hs, m'.files, Join(m'.events),
             if NeverEnded(hs, d.st, stop, |part|) then d.(stray := map[(stop.filenum, stop.attrid) := part])
             else d.(st := AddData(c, d.st, stop.filenum, stop.attrid, false, part)))
  {
    var f, a, part := stop.filenum, stop.attrid, PartOf(stop, n);
    var k := FindOpen(m.files, Owner(m, f, a));
    MistakesAre(hs, m, d, f, a);
    AppIs(hs, m, f, a, stop.eoa, stop.data, n);
    WantedIs(hs, m, d, k, a);
    ViewOf(Join(m.events), m.files, f, a);
    assert Stateless(m, k, a) <==> !HasState(d.st, f, a);
    hide HandlingOf, HandlingAt, JoinOn, Tracks, AddData, HunkAt, HasState, FindBuf, FindOpen, Owner, SetUp, Sound, Clash, Receives;
    if NeverEnded(hs, d.st, stop, |part|) {
      CutFragment(hs, m, d, k, a, part);
    } else {
      CutHunk(hs, c, m, d, k, a, part);
    }
  }

  lemma {:induction false} WantedIs(hs: seq<Handling>, m: Machine, d: Delivery, k: nat, a: u16)
    requires Terminated(hs) && Tracks(hs, m.files, Join(m.events), d) && k < |m.files|
    ensures HandlingAt(hs, m, k, a) == HandlingOf(hs, a)
  {
    var j := FindBuf(m.files[k].attrs, a);
    if j < |m.files[k].attrs| {
      assert GoodAttr(hs, m.files[k].attrs[j]) by { assert GoodFile(hs, m.files[k]); }
    }
  }

  /** The reader wants the data of a record exactly where the caller does. */
  lemma {:induction false} WantedExactly(hs: seq<Handling>, c: Caller, m: Machine, d: Delivery, f: u16, a: u16)
    requires Terminated(hs) && Refines(hs, m, d) && (forall b :: c.wants(b) <==> HandlingOf(hs, b).callback)
    ensures Wanted(hs, m, f, a) <==> Receives(d.st, f) && c.wants(a)
  {
    MistakesAre(hs, m, d, f, a);
    if Accepts(m, f) {
      AppIs(hs, m, f, a, false, [], 0);
      WantedIs(hs, m, d, FindOpen(m.files, Owner(m, f, a)), a);
    }
  }

  /** The end of the input, where no record is taken for another file's attribute. */
  lemma {:induction false} HaltReports(hs: seq<Handling>, c: Caller, m: Machine, d: Delivery, stop: Stop, n: nat)
    requires Terminated(hs) && Refines(hs, m, d) && d.stray == map[] && (forall a :: c.wants(a) <==> HandlingOf(hs, a).callback)
    requires ProperStop(stop) && (stop.Partial? ==> !Clash(d.st, d.cache, stop.filenum, stop.attrid))
    ensures Reports(c, hs, Settle(c, d.st, stop), n, Halted(hs, m, stop, n))
  {
    hide HandlingOf, JoinOn, Tracks, AddData, CloseFound, Clash, AllFinished, KnownFinished, CloseAll, Sound, FindOpen;
    match stop
    case Partial(f, a, eoa, data) => PartialReports(hs, c, m, d, stop, n);
    case Padding(f) =>
      KnownFinishes(hs, c, m, d, f, true);
      SuccessReports(hs, c, KnownFinished(m, f, true), Delivery(CloseFound(c, d.st, f, true), map[], if Known(d.st, f) then NoCache else d.cache));
    case EmptyName(f) =>
      KnownFinishes(hs, c, m, d, f, true);
      ErrorReports(hs, KnownFinished(m, f, true), Delivery(CloseFound(c, d.st, f, true), map[], if Known(d.st, f) then NoCache else d.cache));
    case NameWithoutEoa(f) =>
      KnownFinishes(hs, c, m, d, f, true);
      ErrorReports(hs, KnownFinished(m, f, true), Delivery(CloseFound(c, d.st, f, true), map[], if Known(d.st, f) then NoCache else d.cache));
    case Eof => SuccessReports(hs, c, m, d);
    case _ => ErrorReports(hs, m, d);
  }

  lemma {:induction false} SuccessReports(hs: seq<Handling>, c: Caller, m: Machine, d: Delivery)
    requires Terminated(hs) && Tracks(hs, m.files, Join(m.events), d) && d.stray == map[]
    requires forall a :: c.wants(a) <==> HandlingOf(hs, a).callback
    ensures var js := Join(AllFinished(m).events);
      js.out == d.st.out + CloseAll(c, d.st.files) && forall f: u16, a: u16 :: Pend(js, f, a) == []
  {
    AllFinish(hs, c, m, d);
    assert forall f: u16, a: u16 :: Stray(d, f, a) == [];
  }

  lemma {:induction false} ErrorReports(hs: seq<Handling>, m: Machine, d: Delivery)
    requires Terminated(hs) && Tracks(hs, m.files, Join(m.events), d) && d.stray == map[]
    ensures var js := Join(m.events);
      js.out == d.st.out && forall f: u16, a: u16 :: Pend(js, f, a) <= HeldBy(d.st, f, a)
  {
    forall f: u16, a: u16 ensures Pend(Join(m.events), f, a) <= HeldBy(d.st, f, a) {
      HandedOver(hs, m, d, f, a);
    }
  }

  lemma {:induction false} PartialReports(hs: seq<Handling>, c: Caller, m: Machine, d: Delivery, stop: Stop, n: nat)
    requires Terminated(hs) && Refines(hs, m, d) && d.stray == map[] && (forall a :: c.wants(a) <==> HandlingOf(hs, a).callback)
    requires stop.Partial? && ProperStop(stop) && !Clash(d.st, d.cache, stop.filenum, stop.attrid)
    ensures Reports(c, hs, Settle(c, d.st, stop), n, Halted(hs, m, stop, n))
  {
    var f, a := stop.filenum, stop.attrid;
    WantedExactly(hs, c, m, d, f, a);
    hide HandlingOf, JoinOn, Tracks, AddData, Clash, AllFinished, CloseAll, Sound, FindOpen, Wanted, AppRecord, HasState, Stopping;
    if Wanted(hs, m, f, a) {
      WantedReports(hs, c, m, d, stop, n);
    } else {
      SkippedTracks(hs, c, m, d, stop, n);
      SkippedReports(hs, c, m, d.st, stop, n);
    }
  }

  lemma {:induction false} SkippedReports(hs: seq<Handling>, c: Caller, m: Machine, st: ReaderState, stop: Stop, n: nat)
    requires Terminated(hs) && stop.Partial? && !(Receives(st, stop.filenum) && c.wants(stop.attrid))
    requires !Wanted(hs, m, stop.filenum, stop.attrid) && !Mistakes(m, stop.filenum, stop.attrid)
    requires var js := Join(AllFinished(Stopping(hs, m, stop, n)).events);
      var s := AddData(c, st, stop.filenum, stop.attrid, stop.eoa, stop.data);
      js.out == s.out + CloseAll(c, s.files) && forall f: u16, a: u16 :: Pend(js, f, a) == []
    ensures Reports(c, hs, Settle(c, st, stop), n, Halted(hs, m, stop, n))
  {
    hide HandlingOf, JoinOn, AddData, AllFinished, CloseAll, Wanted, HasState, Stopping, Receives, Mistakes;
  }

  lemma {:induction false} WantedReports(hs: seq<Handling>, c: Caller, m: Machine, d: Delivery, stop: Stop, n: nat)
    requires Terminated(hs) && Refines(hs, m, d) && d.stray == map[] && (forall a :: c.wants(a) <==> HandlingOf(hs, a).callback)
    requires stop.Partial? && ProperStop(stop) && !Clash(d.st, d.cache, stop.filenum, stop.attrid)
    requires Wanted(hs, m, stop.filenum, stop.attrid)
    ensures Reports(c, hs, Final(d.st, Ended(stop)), n, Halted(hs, m, stop, n))
  {
    var f, a, m1, part := stop.filenum, stop.attrid, Stopping(hs, m, stop, n), PartOf(stop, n);
    hide HandlingOf, JoinOn, Tracks, AddData, Clash, AllFinished, CloseAll, Sound, FindOpen, Wanted, HasState, Stopping, NeverEnded, Pend, Stray, Refines;
    CutTracks(hs, c, m, d, stop, n);
    if NeverEnded(hs, d.st, stop, |part|) {
      var d1 := d.(stray := map[(f, a) := part]);
      AllFinish(hs, c, m1, d1);
      OnlyLoose(hs, d1, d.st, stop, n);
    } else {
      SuccessReports(hs, c, m1, d.(st := AddData(c, d.st, f, a, false, part)));
      NoneLoose(hs, d.st, stop, n);
    }
  }

  lemma {:induction false} OnlyLoose(hs: seq<Handling>, d: Delivery, st: ReaderState, stop: Stop, n: nat)
    requires Terminated(hs) && stop.Partial? && NeverEnded(hs, st, stop, |PartOf(stop, n)|)
    requires d.stray == map[(stop.filenum, stop.attrid) := PartOf(stop, n)]
    ensures forall f: u16, a: u16 :: Stray(d, f, a) == Loose(hs, st, stop, n, f, a)
  {
    hide NeverEnded;
  }

  lemma {:induction false} NoneLoose(hs: seq<Handling>, st: ReaderState, stop: Stop, n: nat)
    requires Terminated(hs) && stop.Partial? && !NeverEnded(hs, st, stop, |PartOf(stop, n)|)
    ensures forall f: u16, a: u16 :: Loose(hs, st, stop, n, f, a) == []
  {
    hide NeverEnded;
  }

  /** Data that nobody wants is skipped, also past the end of the input. */
  lemma {:induction false} SkippedTracks(hs: seq<Handling>, c: Caller, m: Machine, d: Delivery, stop: Stop, n: nat)
    requires Terminated(hs) && Refines(hs, m, d) && d.stray == map[] && (forall a :: c.wants(a) <==> HandlingOf(hs, a).callback)
    requires stop.Partial? && ProperStop(stop) && !Clash(d.st, d.cache, stop.filenum, stop.attrid)
    requires !Wanted(hs, m, stop.filenum, stop.attrid)
    ensures !Mistakes(m, stop.filenum, stop.attrid)
    ensures var js := Join(AllFinished(Stopping(hs, m, stop, n)).events);
      var s := AddData(c, d.st, stop.filenum, stop.attrid, stop.eoa, stop.data);
      js.out == s.out + CloseAll(c, s.files) && forall f: u16, a: u16 :: Pend(js, f, a) == []
  {
    var f, a := stop.filenum, stop.attrid;
    var m1, d1 := Stopping(hs, m, stop, n), DeliverData(c, d, f, a, stop.eoa, stop.data);
    MistakesAre(hs, m, d, f, a);
    hide HandlingOf, JoinOn, Tracks, Clash, AllFinished, CloseAll, Sound, FindOpen, Wanted, AppRecord, Mistakes;
    AppTracks(hs, c, m, d, f, a, stop.eoa, stop.data, n);
    NoClashDelivered(c, d.st, d.cache, Rec(f, a, stop.eoa, stop.data));
    SuccessReports(hs, c, m1, d1);
  }

  // ---------- whole reads ----------

  /** Until the end of the input, the items make the reader go on, and do no harm. */
  predicate AllGentle(c: Caller, hs: seq<Handling>, d: Delivery, items: seq<Item>)
    requires Terminated(hs)
    decreases |items|
  {
    items != [] ==> Gentle(c, hs, d.st, d.cache, items[0]) && AllGentle(c, hs, Deliver(c, d, items[0]), items[1..])
  }

  lemma {:induction false} GentleFreesNot(hs: seq<Handling>, c: Caller, m: Machine, d: Delivery, item: Item)
    requires Terminated(hs) && Refines(hs, m, d) && Gentle(c, hs, d.st, d.cache, item)
    ensures !Frees(m, item)
  {
    if item.Rec? {
      MistakesAre(hs, m, d, item.filenum, item.attrid);
    }
  }

  /** After all items the reader stands where they say, however each was cut. */
  lemma {:induction false} ItemsRead(hs: seq<Handling>, ignores: Ignores, c: Caller, m: Machine, d: Delivery, p: Parsed, cuts: Cuts)
    returns (m': Machine, n: nat)
    requires Terminated(hs) && Refines(hs, m, d) && Serves(c, hs, ignores)
    requires KnownAttrids(p.items) && AllGentle(c, hs, d, p.items)
    ensures Refines(hs, m', DeliverAll(c, d, p.items))
    ensures ReadItems(hs, ignores, m, p, cuts) == Halted(hs, m', p.stop, n)
    decreases |p.items|
  {
    if p.items == [] {
      m', n := m, Cut(cuts);
    } else {
      var item := p.items[0];
      hide HandlingOf, Refines, Turn, Deliver, Frees, Gentle, Halted, Serves;
      FirstKnown(p.items);
      GentleFreesNot(hs, c, m, d, item);
      TurnRefines(hs, ignores, c, m, d, item, Cut(cuts));
      m', n := ItemsRead(hs, ignores, c, Turn(hs, ignores, m, item, Cut(cuts)), Deliver(c, d, item), Parsed(p.items[1..], p.stop), LaterCuts(cuts));
    }
  }

  lemma {:induction false} FirstKnown(items: seq<Item>)
    requires KnownAttrids(items) && items != []
    ensures KnownAttrids([items[0]]) && KnownAttrids(items[1..])
  {}

  lemma {:induction false} NoClashGentle(c: Caller, hs: seq<Handling>, st: ReaderState, cache: Cache, items: seq<Item>)
    requires Terminated(hs) && !Clashes(c, st, cache, items)
    ensures AllGentle(c, hs, Delivery(st, map[], cache), items)
    decreases |items|
  {
    hide Step, NextCache, ItemClashes, Harmless, Deliver;
    if items != [] {
      NoClashDelivered(c, st, cache, items[0]);
      NoClashGentle(c, hs, Step(c, st, items[0]), NextCache(st, cache, items[0]), items[1..]);
    }
  }

  lemma {:induction false} ParsesProperly(b: seq<byte>)
    ensures KnownAttrids(Parse(b).items) && ProperStop(Parse(b).stop)
    decreases |b|
  {
    hide DecodeRecordHeader, HeaderVersion, NamelessStop;
    if ParseOne(b).Got? {
      ParsesProperly(b[ParseOne(b).len..]);
    }
  }

  /** No record of the input, nor the one in which it ends, is taken for another file's attribute. */
  predicate Unconfused(c: Caller, b: seq<byte>) {
    var p := Parse(b);
    && !Clashes(c, INITIAL, NoCache, p.items)
    && (p.stop.Partial? ==>
          !Clash(Fold(c, INITIAL, p.items), FoldCache(c, INITIAL, NoCache, p.items), p.stop.filenum, p.stop.attrid))
  }

  lemma {:induction false} IdleRefines(hs: seq<Handling>)
    requires Terminated(hs)
    ensures Refines(hs, IDLE, BEGIN)
  {
    assert AbsFiles(NOTHING_YET, []) == [];
  }

  /** For every input that does not confuse the reader, whatever the minimum sizes and however much
      of each record was in the buffer: what is delivered is what the reference reader reports, and
      without an end only the part of a single record in which the input ends. */
  lemma {:induction false} ReadReports(hs: seq<Handling>, ignores: Ignores, c: Caller, b: seq<byte>, cuts: Cuts) returns (k: nat)
    requires Terminated(hs) && Serves(c, hs, ignores) && Unconfused(c, b)
    ensures Reports(c, hs, ReadAll(c, b), k, ReadBytes(hs, ignores, b, cuts))
  {
    k := 0;
    if Begins(b) {
      var p := Parse(b);
      hide HandlingOf, Refines, Clashes, Clash, Parse, Halted, Settle, ReadItems, AllGentle, DeliverAll, Fold, FoldCache, Begins, Reports;
      ParsesProperly(b);
      IdleRefines(hs);
      NoClashGentle(c, hs, INITIAL, NoCache, p.items);
      NoClashDelivers(c, INITIAL, NoCache, p.items);
      var m;
      m, k := ItemsRead(hs, ignores, c, IDLE, BEGIN, p, cuts);
      HaltReports(hs, c, m, DeliverAll(c, BEGIN, p.items), p.stop, k);
    }
  }
}

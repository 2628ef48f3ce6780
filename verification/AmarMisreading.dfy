/** What the caller is told when records are taken for another file's attribute, compared to what the
    archive says, and the archives that are always read right. */
module AmarMisreading {
  import opened AmarFormat
  import opened Text
  import opened AmarSemantics
  import opened AmarMachine
  import opened AmarDelivery
  import opened AmarRefinement
  import opened AmarReading
  import opened AmarTruncation
  import opened AmarConfusion

  /** What is reported about one file, and of its attributes about one. */
  function ObsOf(obs: seq<Obs>, f: u16, a: u16): seq<Obs> {
    if obs == [] then []
    else (if obs[0].filenum == f && (obs[0].Attr? ==> obs[0].attrid == a) then [obs[0]] else []) + ObsOf(obs[1..], f, a)
  }

  /** Every file and every attribute by itself is told the same. */
  ghost predicate SameTold(x: seq<Obs>, y: seq<Obs>) {
    forall f: u16, a: u16 :: ObsOf(x, f, a) == ObsOf(y, f, a)
  }

  lemma {:induction false} ObsOfMore(x: seq<Obs>, y: seq<Obs>, f: u16, a: u16)
    ensures ObsOf(x + y, f, a) == ObsOf(x, f, a) + ObsOf(y, f, a)
    decreases |x|
  {
    if x == [] {
      assert x + y == y;
    } else {
      var first := if x[0].filenum == f && (x[0].Attr? ==> x[0].attrid == a) then [x[0]] else [];
      assert (x + y)[1..] == x[1..] + y;
      ObsOfMore(x[1..], y, f, a);
      Regroup(first, ObsOf(x[1..], f, a), ObsOf(y, f, a));
    }
  }

  lemma {:induction false} ObsOfOne(o: Obs, f: u16, a: u16)
    ensures ObsOf([o], f, a) == if o.filenum == f && (o.Attr? ==> o.attrid == a) then [o] else []
  {
    assert [o][1..] == [];
  }

  // ---------- what closing a file tells ----------

  /** Closing file f, as told about file g and its attribute b. */
  function ClosingObs(c: Caller, st: ReaderState, f: u16, truncated: bool, g: u16, b: u16): seq<Obs> {
    if g != f || !Known(st, f) then []
    else
      (if c.wants(b) && HasState(st, f, b) then [Attr(f, b, HeldBy(st, f, b), true)] else [])
      + if Receives(st, f) then [Finished(f, truncated)] else []
  }

  lemma {:induction false} AttrsObs(c: Caller, f: u16, attrs: seq<AttrState>, g: u16, b: u16)
    requires DistinctAttrs(attrs)
    ensures ObsOf(CloseAttrs(c, f, attrs), g, b) ==
      if g == f && c.wants(b) && Held(attrs, b).Some? then [Attr(f, b, Held(attrs, b).value, true)] else []
    decreases |attrs|
  {
    if attrs != [] {
      var x, rest := attrs[0], attrs[1..];
      assert attrs == [x] + rest;
      AttrsObs(c, f, rest, g, b);
      HeldFirst(x, rest, b);
      if x.attrid == b {
        FindAttrIs(rest, b, |rest|);
      }
      var first := if c.wants(x.attrid) then [Attr(f, x.attrid, x.data, true)] else [];
      ObsOfMore(first, CloseAttrs(c, f, rest), g, b);
      ObsOfOne(Attr(f, x.attrid, x.data, true), g, b);
      hide ObsOf, CloseAttrs, Held;
      assert first == [] ==> ObsOf(first, g, b) == [] by { NothingOf(g, b); }
    }
  }

  lemma {:induction false} NothingOf(f: u16, a: u16)
    ensures ObsOf([], f, a) == []
  {}

  lemma {:induction false} FileObs(c: Caller, file: FileState, truncated: bool, g: u16, b: u16)
    requires DistinctAttrs(file.attrs)
    ensures ObsOf(CloseFile(c, file, truncated), g, b) ==
      if g != file.filenum then []
      else
        (if c.wants(b) && Held(file.attrs, b).Some? then [Attr(g, b, Held(file.attrs, b).value, true)] else [])
        + if file.ignore then [] else [Finished(g, truncated)]
  {
    var f := file.filenum;
    var last := if file.ignore then [] else [Finished(f, truncated)];
    hide ObsOf, CloseAttrs, Held;
    AttrsObs(c, f, file.attrs, g, b);
    ObsOfMore(CloseAttrs(c, f, file.attrs), last, g, b);
    ObsOfOne(Finished(f, truncated), g, b);
    NothingOf(g, b);
  }

  lemma {:induction false} CloseObs(c: Caller, st: ReaderState, f: u16, truncated: bool, g: u16, b: u16)
    requires NoTwins(st)
    ensures ObsOf(CloseFound(c, st, f, truncated).out, g, b) == ObsOf(st.out, g, b) + ClosingObs(c, st, f, truncated, g, b)
  {
    hide ObsOf, CloseFile;
    if Known(st, f) {
      var file := st.files[FindFile(st.files, f)];
      FileObs(c, file, truncated, g, b);
      ObsOfMore(st.out, CloseFile(c, file, truncated), g, b);
    } else {
      assert ObsOf(st.out, g, b) + [] == ObsOf(st.out, g, b);
    }
  }

  lemma {:induction false} AllObs(c: Caller, st: ReaderState, g: u16, b: u16)
    requires DistinctFiles(st.files) && NoTwins(st)
    ensures ObsOf(CloseAll(c, st.files), g, b) == ClosingObs(c, st, g, true, g, b)
    decreases |st.files|
  {
    if st.files != [] {
      var rest := ReaderState(st.files[1..], st.out);
      AllObs(c, rest, g, b);
      hide ObsOf, CloseFile, Held;
      FileObs(c, st.files[0], true, g, b);
      ObsOfMore(CloseFile(c, st.files[0], true), CloseAll(c, rest.files), g, b);
      if st.files[0].filenum == g {
        FindFileIs(rest.files, g, |rest.files|);
        HeldIs(st, g, b);
        assert ClosingObs(c, st, g, true, g, b) + [] == ClosingObs(c, st, g, true, g, b);
      } else {
        assert forall x: seq<Obs> :: [] + x == x;
      }
    }
  }

  lemma {:induction false} HeldIs(st: ReaderState, f: u16, a: u16)
    requires Known(st, f)
    ensures var h := Held(st.files[FindFile(st.files, f)].attrs, a);
      (HasState(st, f, a) <==> h.Some?) && (h.Some? ==> HeldBy(st, f, a) == h.value)
  {}

  // ---------- what each change does to the attributes' states ----------

  lemma {:induction false} StateAfterClose(c: Caller, st: ReaderState, f: u16, truncated: bool, g: u16, b: u16)
    requires DistinctFiles(st.files)
    ensures var st' := CloseFound(c, st, f, truncated);
      (HasState(st', g, b) <==> g != f && HasState(st, g, b)) && (g != f ==> HeldBy(st', g, b) == HeldBy(st, g, b))
  {
    FileAfterClose(c, st, f, truncated, g);
    hide CloseFound, FindFile, FindAttr;
  }

  lemma {:induction false} StateAfterStart(c: Caller, st: ReaderState, f: u16, name: seq<byte>, g: u16, b: u16)
    requires DistinctFiles(st.files) && !Known(st, f)
    ensures var st' := Start(c, st, f, name);
      (HasState(st', g, b) <==> HasState(st, g, b)) && HeldBy(st', g, b) == HeldBy(st, g, b)
  {
    FileAfterStart(c, st, f, name, g);
    hide Start, FindFile;
  }

  lemma {:induction false} StateAfterData(c: Caller, st: ReaderState, f: u16, a: u16, eoa: bool, data: seq<byte>, g: u16, b: u16)
    requires DistinctFiles(st.files) && NoTwins(st) && Receives(st, f)
    ensures var st' := AddData(c, st, f, a, eoa, data);
      if (g, b) == (f, a)
      then (HasState(st', g, b) <==> !eoa) && (!eoa ==> HeldBy(st', g, b) == if c.wants(a) then HeldBy(st, f, a) + data else [])
      else (HasState(st', g, b) <==> HasState(st, g, b)) && HeldBy(st', g, b) == HeldBy(st, g, b)
  {
    var st' := AddData(c, st, f, a, eoa, data);
    FileAfterData(c, st, f, a, eoa, data, g);
    if g == f {
      var attrs := st.files[FindFile(st.files, f)].attrs;
      HeldIs(st, f, b);
      HeldIs(st', f, b);
      HeldAfter(c, attrs, a, data, b);
      if b != a {
        HeldWithout(attrs, a, b);
      } else if eoa {
        HeldNoMore(attrs, a);
      }
      hide FindFile, FindAttr, Grow, Without;
    } else {
      hide FindFile, FindAttr, AddData;
    }
  }

  lemma {:induction false} HeldNoMore(attrs: seq<AttrState>, a: u16)
    requires DistinctAttrs(attrs)
    ensures Held(Without(attrs, FindAttr(attrs, a)), a) == None
  {
    var j := FindAttr(attrs, a);
    var left := Without(attrs, j);
    if j < |attrs| {
      assert forall k | 0 <= k < |left| :: left[k] == attrs[if k < j then k else k + 1];
    }
    FindAttrIs(left, a, |left|);
  }

  lemma {:induction false} ObsAfterData(c: Caller, st: ReaderState, f: u16, a: u16, eoa: bool, data: seq<byte>, g: u16, b: u16)
    requires Receives(st, f)
    ensures ObsOf(AddData(c, st, f, a, eoa, data).out, g, b) == ObsOf(st.out, g, b) +
      if (g, b) == (f, a) && eoa && c.wants(a) then [Attr(f, a, HeldBy(st, f, a) + data, false)] else []
  {
    hide ObsOf;
    HeldIs(st, f, a);
    ObsOfOne(Attr(f, a, HeldBy(st, f, a) + data, false), g, b);
    NothingOf(g, b);
    if eoa {
      ObsOfMore(st.out, if c.wants(a) then [Attr(f, a, HeldBy(st, f, a) + data, false)] else [], g, b);
    }
    assert ObsOf(st.out, g, b) + [] == ObsOf(st.out, g, b);
  }

  // ---------- what is delivered, next to what the archive says ----------

  /** One attribute: where it has a state of its own, that holds all its data; where it is stranded,
      its data is stray; and the same was told of it so far. */
  predicate AlikeAt(c: Caller, t: Track, d: Delivery, st: ReaderState, f: u16, a: u16) {
    && ((f, a) in t.begun <==> HasState(st, f, a))
    && ((f, a) in t.own <==> HasState(d.st, f, a))
    && ((f, a) in t.own ==> (f, a) in t.begun)
    && (c.wants(a) && (f, a) in t.own ==> HeldBy(d.st, f, a) == HeldBy(st, f, a))
    && (c.wants(a) ==> Stray(d, f, a) == if (f, a) in t.begun && (f, a) !in t.own then HeldBy(st, f, a) else [])
    && ObsOf(d.st.out, f, a) == ObsOf(st.out, f, a)
  }

  predicate Neat(st: ReaderState) {
    Tidy(st) && NoTwins(st)
  }

  ghost predicate Alike(c: Caller, t: Track, d: Delivery, st: ReaderState) {
    && OpenIn(t, st) && OpenIn(t, d.st) && d.cache == t.cache && Neat(st) && Neat(d.st)
    && forall f: u16, a: u16 :: AlikeAt(c, t, d, st, f, a)
  }

  lemma {:induction false} NeatFiles(st: ReaderState)
    requires Neat(st)
    ensures DistinctFiles(st.files) && NoTwins(st)
  {}

  lemma {:induction false} NeatStep(c: Caller, st: ReaderState, item: Item)
    requires Neat(st)
    ensures Neat(Step(c, st, item))
  {
    hide Tidy, NoTwins, Step;
    StepTidy(c, st, item);
    StepNoTwins(c, st, item);
  }

  lemma {:induction false} NeatData(c: Caller, st: ReaderState, f: u16, a: u16, eoa: bool, data: seq<byte>)
    requires Neat(st) && a >= ATTR_APP_START
    ensures Neat(AddData(c, st, f, a, eoa, data))
  {
    NeatStep(c, st, Rec(f, a, eoa, data));
  }

  /** Closing a file none of whose attributes is stranded. */
  lemma {:induction false} CloseAlikeAt(c: Caller, t: Track, d: Delivery, st: ReaderState, f: u16, truncated: bool, cache: Cache, g: u16, b: u16)
    requires Alike(c, t, d, st) && !(f in t.open && Stranded(c, t, f))
    ensures AlikeAt(c, CloseTrack(t, f), Delivery(CloseFound(c, d.st, f, truncated), d.stray, cache), CloseFound(c, st, f, truncated), g, b)
  {
    hide CloseFound, HasState, HeldBy, Known, Receives, ObsOf, Stray, Alike, Tidy, NoTwins, OpenIn;
    AlikeMeans(c, t, d, st, g, b);
    AlikeMeans(c, t, d, st, f, b);
    StateAfterClose(c, st, f, truncated, g, b);
    StateAfterClose(c, d.st, f, truncated, g, b);
    CloseObs(c, st, f, truncated, g, b);
    CloseObs(c, d.st, f, truncated, g, b);
    NotStranded(c, t, f, b);
    SameStrays(d, Delivery(CloseFound(c, d.st, f, truncated), d.stray, cache));
    hide Stranded;
  }

  lemma {:induction false} NotStranded(c: Caller, t: Track, f: u16, a: u16)
    ensures !Stranded(c, t, f) && c.wants(a) && (f, a) in t.begun ==> (f, a) in t.own
  {}

  lemma {:induction false} AlikeMeans(c: Caller, t: Track, d: Delivery, st: ReaderState, f: u16, a: u16)
    requires Alike(c, t, d, st)
    ensures AlikeAt(c, t, d, st, f, a)
    ensures f in t.open <==> Known(st, f)
    ensures f in t.open <==> Known(d.st, f)
    ensures Reads(t, f) <==> Receives(st, f)
    ensures Reads(t, f) <==> Receives(d.st, f)
    ensures f !in t.open ==> !HasState(st, f, a) && !HasState(d.st, f, a)
    ensures !HasState(st, f, a) ==> HeldBy(st, f, a) == []
    ensures DistinctFiles(st.files) && NoTwins(st) && DistinctFiles(d.st.files) && NoTwins(d.st)
  {}

  lemma {:induction false} CloseAlike(c: Caller, t: Track, d: Delivery, st: ReaderState, f: u16, truncated: bool)
    requires Alike(c, t, d, st) && !(f in t.open && Stranded(c, t, f))
    ensures Alike(c, CloseTrack(t, f),
                  Delivery(CloseFound(c, d.st, f, truncated), d.stray, if Known(d.st, f) then NoCache else d.cache),
                  CloseFound(c, st, f, truncated))
  {
    var cache := if Known(d.st, f) then NoCache else d.cache;
    var d1 := Delivery(CloseFound(c, d.st, f, truncated), d.stray, cache);
    NeatFiles(st);
    NeatFiles(d.st);
    ClosedNeatly(c, st, f, truncated);
    ClosedNeatly(c, d.st, f, truncated);
    assert f in t.open <==> Known(d.st, f);
    ClosedTrack(t, f);
    hide AlikeAt, Neat, CloseFound, OpenIn, Known, CloseTrack;
    CloseOpen(c, t, st, f, truncated);
    CloseOpen(c, t, d.st, f, truncated);
    forall g: u16, b: u16 ensures AlikeAt(c, CloseTrack(t, f), d1, CloseFound(c, st, f, truncated), g, b) {
      CloseAlikeAt(c, t, d, st, f, truncated, cache, g, b);
    }
  }

  lemma {:induction false} ClosedNeatly(c: Caller, st: ReaderState, f: u16, truncated: bool)
    requires Neat(st)
    ensures Neat(CloseFound(c, st, f, truncated)) && !Known(CloseFound(c, st, f, truncated), f)
  {
    FileAfterClose(c, st, f, truncated, f);
    var i := FindFile(st.files, f);
    hide FindFile, CloseFile;
    if i < |st.files| {
      var left := Without(st.files, i);
      assert forall k | 0 <= k < |left| :: left[k] == st.files[if k < i then k else k + 1];
    }
  }

  lemma {:induction false} StartAlike(c: Caller, t: Track, d: Delivery, st: ReaderState, f: u16, name: seq<byte>)
    requires Alike(c, t, d, st) && !Known(st, f) && !Known(d.st, f)
    ensures Alike(c, t.(open := t.open[f := c.ignores(f, name)]), d.(st := Start(c, d.st, f, name)), Start(c, st, f, name))
  {
    var t1, d1, st1 := t.(open := t.open[f := c.ignores(f, name)]), d.(st := Start(c, d.st, f, name)), Start(c, st, f, name);
    NeatFiles(st);
    NeatFiles(d.st);
    StartedNeatly(c, st, f, name);
    StartedNeatly(c, d.st, f, name);
    hide Neat, Start, OpenIn, Known, AlikeAt;
    StartOpen(c, t, st, f, name);
    StartOpen(c, t, d.st, f, name);
    forall g: u16, b: u16 ensures AlikeAt(c, t1, d1, st1, g, b) {
      assert AlikeAt(c, t, d, st, g, b);
      StartAlikeAt(c, t, d, st, f, name, g, b);
    }
  }

  lemma {:induction false} StartAlikeAt(c: Caller, t: Track, d: Delivery, st: ReaderState, f: u16, name: seq<byte>, g: u16, b: u16)
    requires AlikeAt(c, t, d, st, g, b) && !Known(st, f) && !Known(d.st, f) && DistinctFiles(st.files) && DistinctFiles(d.st.files)
    ensures AlikeAt(c, t.(open := t.open[f := c.ignores(f, name)]), d.(st := Start(c, d.st, f, name)), Start(c, st, f, name), g, b)
  {
    StateAfterStart(c, st, f, name, g, b);
    StateAfterStart(c, d.st, f, name, g, b);
    ObsOfMore(st.out, [Started(f, name)], g, b);
    ObsOfMore(d.st.out, [Started(f, name)], g, b);
    hide HasState, HeldBy, ObsOf;
    assert Stray(d.(st := Start(c, d.st, f, name)), g, b) == Stray(d, g, b);
  }

  lemma {:induction false} StartedNeatly(c: Caller, st: ReaderState, f: u16, name: seq<byte>)
    requires Neat(st) && !Known(st, f)
    ensures Neat(Start(c, st, f, name))
  {
    FileAfterStart(c, st, f, name, f);
    var files := Start(c, st, f, name).files;
    assert forall k | 0 < k < |files| :: files[k] == st.files[k - 1];
  }

  /** A record that is taken for its own file's attribute. */
  lemma {:induction false} OwnAlikeAt(c: Caller, t: Track, d: Delivery, st: ReaderState, f: u16, a: u16, eoa: bool, data: seq<byte>, g: u16, b: u16)
    requires Alike(c, t, d, st) && Reads(t, f) && a >= ATTR_APP_START && !Confuses(t, Rec(f, a, eoa, data))
    ensures AlikeAt(c, TrackItem(c, t, Rec(f, a, eoa, data)), DeliverData(c, d, f, a, eoa, data), AddData(c, st, f, a, eoa, data), g, b)
  {
    var got := Stray(d, f, a) + data;
    var d1 := Delivery(AddData(c, d.st, f, a, eoa, got), d.stray - {(f, a)}, if eoa then NoCache else Cached(f, a));
    hide AddData, HasState, HeldBy, Receives, Known, ObsOf, Stray, Alike, Tidy, NoTwins;
    AlikeMeans(c, t, d, st, g, b);
    AlikeMeans(c, t, d, st, f, a);
    StateAfterData(c, st, f, a, eoa, data, g, b);
    StateAfterData(c, d.st, f, a, eoa, got, g, b);
    ObsAfterData(c, st, f, a, eoa, data, g, b);
    ObsAfterData(c, d.st, f, a, eoa, got, g, b);
    Gathered(c, t, d, st, f, a, data);
    OwnDelivers(c, t, d, st, f, a, eoa, data);
    OwnTracks(c, t, f, a, eoa, data);
    Unstrayed(d, d1, f, a);
    hide Confuses, DeliverData, TrackItem, Reads;
  }

  lemma {:induction false} OwnDelivers(c: Caller, t: Track, d: Delivery, st: ReaderState, f: u16, a: u16, eoa: bool, data: seq<byte>)
    requires Alike(c, t, d, st) && Reads(t, f) && a >= ATTR_APP_START && !Confuses(t, Rec(f, a, eoa, data))
    ensures DeliverData(c, d, f, a, eoa, data) ==
      Delivery(AddData(c, d.st, f, a, eoa, Stray(d, f, a) + data), d.stray - {(f, a)}, if eoa then NoCache else Cached(f, a))
  {
    hide AddData, HasState, Stray, AlikeAt, Neat;
    ConfusesIs(t, d.st, Rec(f, a, eoa, data));
  }

  lemma {:induction false} OwnTracks(c: Caller, t: Track, f: u16, a: u16, eoa: bool, data: seq<byte>)
    requires Reads(t, f) && a >= ATTR_APP_START && !Confuses(t, Rec(f, a, eoa, data))
    ensures var t1 := TrackItem(c, t, Rec(f, a, eoa, data));
      && t1.begun == (if eoa then t.begun - {(f, a)} else t.begun + {(f, a)})
      && t1.own == (if eoa then t.own - {(f, a)} else t.own + {(f, a)})
  {}

  /** What is held, stray and new comes to the same as what the archive says. */
  lemma {:induction false} Gathered(c: Caller, t: Track, d: Delivery, st: ReaderState, f: u16, a: u16, data: seq<byte>)
    requires AlikeAt(c, t, d, st, f, a)
    ensures c.wants(a) ==> HeldBy(d.st, f, a) + (Stray(d, f, a) + data) == HeldBy(st, f, a) + data
  {
    if c.wants(a) {
      if (f, a) in t.own {
        assert Stray(d, f, a) + data == data;
      } else {
        assert HeldBy(d.st, f, a) == [];
        assert [] + (Stray(d, f, a) + data) == Stray(d, f, a) + data;
      }
    }
  }

  /** A record that is taken for another file's attribute, and is not its end. */
  lemma {:induction false} OtherAlikeAt(c: Caller, t: Track, d: Delivery, st: ReaderState, f: u16, a: u16, data: seq<byte>, g: u16, b: u16)
    requires Alike(c, t, d, st) && Confuses(t, Rec(f, a, false, data))
    ensures AlikeAt(c, TrackItem(c, t, Rec(f, a, false, data)), DeliverData(c, d, f, a, false, data), AddData(c, st, f, a, false, data), g, b)
  {
    hide AddData, HasState, HeldBy, Receives, Known, ObsOf, Stray, Alike, Clash, Tidy, NoTwins;
    AlikeMeans(c, t, d, st, g, b);
    AlikeMeans(c, t, d, st, f, a);
    OtherDelivers(c, t, d, st, f, a, data);
    StateAfterData(c, st, f, a, false, data, g, b);
    StateAfterData(c, d.st, f, a, false, data, g, b);
    ObsAfterData(c, st, f, a, false, data, g, b);
    ObsAfterData(c, d.st, f, a, false, data, g, b);
    SameStrays(d, d.(st := AddData(c, d.st, f, a, false, data)));
    MoreStray(d, f, a, data);
    assert ObsOf(st.out, g, b) + [] == ObsOf(st.out, g, b) && ObsOf(d.st.out, g, b) + [] == ObsOf(d.st.out, g, b);
    assert [] + data == data;
    hide Confuses, DeliverData, TrackItem, Reads;
  }

  lemma {:induction false} MoreStray(d: Delivery, f: u16, a: u16, data: seq<byte>)
    ensures var d1 := d.(stray := d.stray[(f, a) := Stray(d, f, a) + data]);
      && Stray(d1, f, a) == Stray(d, f, a) + data
      && forall x: u16, y: u16 | (x, y) != (f, a) :: Stray(d1, x, y) == Stray(d, x, y)
  {}

  lemma {:induction false} OtherDelivers(c: Caller, t: Track, d: Delivery, st: ReaderState, f: u16, a: u16, data: seq<byte>)
    requires Alike(c, t, d, st) && Confuses(t, Rec(f, a, false, data))
    ensures TrackItem(c, t, Rec(f, a, false, data)) == t.(begun := t.begun + {(f, a)})
    ensures DeliverData(c, d, f, a, false, data) ==
      if !c.wants(a) then d
      else if HasState(d.st, f, a) then d.(st := AddData(c, d.st, f, a, false, data))
      else d.(stray := d.stray[(f, a) := Stray(d, f, a) + data])
  {
    hide AddData, HasState, Stray, AlikeAt, Neat;
    ConfusesIs(t, d.st, Rec(f, a, false, data));
  }

  lemma {:induction false} AppAlike(c: Caller, t: Track, d: Delivery, st: ReaderState, item: Item)
    requires Alike(c, t, d, st) && item.Rec? && item.attrid >= ATTR_APP_START && !(Confuses(t, item) && item.eoa)
    ensures Alike(c, TrackItem(c, t, item), DeliverData(c, d, item.filenum, item.attrid, item.eoa, item.data),
                  AddData(c, st, item.filenum, item.attrid, item.eoa, item.data))
  {
    var f, a, eoa, data := item.filenum, item.attrid, item.eoa, item.data;
    var t1, d1, st1 := TrackItem(c, t, item), DeliverData(c, d, f, a, eoa, data), AddData(c, st, f, a, eoa, data);
    AlikeMeans(c, t, d, st, f, a);
    if Reads(t, f) {
      AppNeat(c, t, d, st, item);
      forall g: u16, b: u16 ensures AlikeAt(c, t1, d1, st1, g, b) {
        if Confuses(t, item) {
          OtherAlikeAt(c, t, d, st, f, a, data, g, b);
        } else {
          OwnAlikeAt(c, t, d, st, f, a, eoa, data, g, b);
        }
      }
      hide AlikeAt, Neat, OpenIn, TrackItem, DeliverData, AddData, Confuses;
    } else {
      hide AlikeAt, Neat, OpenIn, Confuses;
      NotReceived(c, st, f, a, eoa, data);
    }
  }

  /** The same files stay open, with the same attribute remembered. */
  lemma {:induction false} AppNeat(c: Caller, t: Track, d: Delivery, st: ReaderState, item: Item)
    requires Alike(c, t, d, st) && item.Rec? && item.attrid >= ATTR_APP_START && Reads(t, item.filenum)
    requires !(Confuses(t, item) && item.eoa)
    ensures var t1 := TrackItem(c, t, item); var d1 := DeliverData(c, d, item.filenum, item.attrid, item.eoa, item.data);
      var st1 := AddData(c, st, item.filenum, item.attrid, item.eoa, item.data);
      OpenIn(t1, st1) && OpenIn(t1, d1.st) && d1.cache == t1.cache && Neat(st1) && Neat(d1.st)
  {
    var f, a, eoa, data := item.filenum, item.attrid, item.eoa, item.data;
    TrackOpen(c, t, item);
    var t1 := TrackItem(c, t, item);
    NeatFiles(st);
    NeatFiles(d.st);
    hide AlikeAt, Neat, AddData, HasState, Stray, TrackItem, NoTwins;
    SameReads(t, t1, st);
    SameReads(t, t1, d.st);
    DataOpen(c, t1, st, f, a, eoa, data);
    NeatData(c, st, f, a, eoa, data);
    if Confuses(t, item) {
      OtherDelivers(c, t, d, st, f, a, data);
      DataOpen(c, t1, d.st, f, a, false, data);
      NeatData(c, d.st, f, a, false, data);
    } else {
      OwnDelivers(c, t, d, st, f, a, eoa, data);
      DataOpen(c, t1, d.st, f, a, eoa, Stray(d, f, a) + data);
      NeatData(c, d.st, f, a, eoa, Stray(d, f, a) + data);
    }
  }

  lemma {:induction false} SameReads(t: Track, t1: Track, st: ReaderState)
    requires OpenIn(t, st) && t1.open == t.open
    ensures OpenIn(t1, st)
  {
    assert forall f: u16 :: Reads(t1, f) <==> Reads(t, f);
    hide Known, Receives;
  }

  lemma {:induction false} StepAlike(c: Caller, t: Track, d: Delivery, st: ReaderState, item: Item)
    requires Alike(c, t, d, st) && KnownAttrids([item]) && !(Confuses(t, item) && item.eoa)
    requires !(ClosesFile(t, item) && Stranded(c, t, item.filenum))
    ensures Alike(c, TrackItem(c, t, item), Deliver(c, d, item), Step(c, st, item))
  {
    assert [item][0] == item;
    hide Alike, CloseFound, Start, DeliverData, AddData, Confuses, Stranded, CloseTrack;
    match item
    case Header =>
    case Rec(f, a, eoa, data) =>
      if a == ATTR_EOF {
        CloseAlike(c, t, d, st, f, false);
      } else if a == ATTR_FILENAME {
        CloseAlike(c, t, d, st, f, true);
        assert !Known(CloseFound(c, st, f, true), f) && !Known(CloseFound(c, d.st, f, true), f) by { GoneBoth(c, t, d, st, f); }
        hide Known;
        StartAlike(c, CloseTrack(t, f), Delivery(CloseFound(c, d.st, f, true), d.stray, if Known(d.st, f) then NoCache else d.cache),
                   CloseFound(c, st, f, true), f, data);
      } else {
        AppAlike(c, t, d, st, item);
      }
  }

  lemma {:induction false} GoneBoth(c: Caller, t: Track, d: Delivery, st: ReaderState, f: u16)
    requires Alike(c, t, d, st)
    ensures !Known(CloseFound(c, st, f, true), f) && !Known(CloseFound(c, d.st, f, true), f)
  {
    ClosedNeatly(c, st, f, true);
    ClosedNeatly(c, d.st, f, true);
  }

  // ---------- the end ----------

  /** What is told once all open files are closed. */
  function Told(c: Caller, st: ReaderState): seq<Obs> {
    st.out + CloseAll(c, st.files)
  }

  lemma {:induction false} ToldObs(c: Caller, st: ReaderState, g: u16, b: u16)
    requires Neat(st)
    ensures ObsOf(Told(c, st), g, b) == ObsOf(st.out, g, b) + ClosingObs(c, st, g, true, g, b)
  {
    NeatFiles(st);
    hide ObsOf, ClosingObs, CloseAll, Neat;
    AllObs(c, st, g, b);
    ObsOfMore(st.out, CloseAll(c, st.files), g, b);
  }

  /** With no attribute stranded in any open file, closing them tells the same. */
  lemma {:induction false} EndAlike(c: Caller, t: Track, d: Delivery, st: ReaderState)
    requires Alike(c, t, d, st) && forall f | f in t.open :: !Stranded(c, t, f)
    ensures SameTold(Told(c, d.st), Told(c, st))
  {
    forall g: u16, b: u16 ensures ObsOf(Told(c, d.st), g, b) == ObsOf(Told(c, st), g, b) {
      hide Told, ObsOf, Known, Receives, HasState, HeldBy, Stray;
      ToldObs(c, st, g, b);
      ToldObs(c, d.st, g, b);
      AlikeMeans(c, t, d, st, g, b);
      NotStranded(c, t, g, b);
    }
  }

  // ---------- once wrong, always wrong ----------

  /** Where a wanted attribute is stranded in file f, closing f tells its end in the archive's account
      and not in the reader's: the two differ from there on. */
  ghost predicate Parted(x: seq<Obs>, y: seq<Obs>) {
    exists f: u16, a: u16, k: nat :: PartedAt(ObsOf(x, f, a), ObsOf(y, f, a), k)
  }

  predicate PartedAt(x: seq<Obs>, y: seq<Obs>, k: nat) {
    k < |x| && k < |y| && x[k] != y[k]
  }

  lemma {:induction false} PartedNotSame(x: seq<Obs>, y: seq<Obs>)
    requires Parted(x, y)
    ensures !SameTold(x, y)
  {
    var f: u16, a: u16, k: nat :| PartedAt(ObsOf(x, f, a), ObsOf(y, f, a), k);
    assert ObsOf(x, f, a) != ObsOf(y, f, a);
  }

  lemma {:induction false} StaysParted(x: seq<Obs>, y: seq<Obs>, x1: seq<Obs>, y1: seq<Obs>)
    requires Parted(x, y) && x <= x1 && y <= y1
    ensures Parted(x1, y1)
  {
    var f: u16, a: u16, k: nat :| PartedAt(ObsOf(x, f, a), ObsOf(y, f, a), k);
    assert x1 == x + x1[|x|..] && y1 == y + y1[|y|..];
    ObsOfMore(x, x1[|x|..], f, a);
    ObsOfMore(y, y1[|y|..], f, a);
    hide ObsOf;
    assert PartedAt(ObsOf(x1, f, a), ObsOf(y1, f, a), k);
  }

  lemma {:induction false} CloseParts(c: Caller, t: Track, d: Delivery, st: ReaderState, f: u16, truncated: bool)
    requires Alike(c, t, d, st) && f in t.open && Stranded(c, t, f)
    ensures Parted(CloseFound(c, d.st, f, truncated).out, CloseFound(c, st, f, truncated).out)
  {
    var x :| x in t.begun && x.0 == f && x !in t.own && c.wants(x.1);
    var a := x.1;
    assert x == (f, a);
    hide CloseFound, HasState, HeldBy, Known, Receives, ObsOf, Stray, Alike, Tidy, NoTwins, OpenIn, Stranded;
    AlikeMeans(c, t, d, st, f, a);
    CloseObs(c, st, f, truncated, f, a);
    CloseObs(c, d.st, f, truncated, f, a);
    assert Receives(st, f) by { StateReceives(c, t, d, st, f, a); }
    assert PartedAt(ObsOf(CloseFound(c, d.st, f, truncated).out, f, a), ObsOf(CloseFound(c, st, f, truncated).out, f, a), |ObsOf(st.out, f, a)|);
  }

  /** An ignored file has no attributes. */
  lemma {:induction false} StateReceives(c: Caller, t: Track, d: Delivery, st: ReaderState, f: u16, a: u16)
    requires Alike(c, t, d, st) && HasState(st, f, a)
    ensures Receives(st, f)
  {
    hide AlikeAt, NoTwins, OpenIn;
  }

  lemma {:induction false} EndParts(c: Caller, t: Track, d: Delivery, st: ReaderState, f: u16)
    requires Alike(c, t, d, st) && f in t.open && Stranded(c, t, f)
    ensures Parted(Told(c, d.st), Told(c, st))
  {
    var x :| x in t.begun && x.0 == f && x !in t.own && c.wants(x.1);
    var a := x.1;
    assert x == (f, a);
    hide Told, HasState, HeldBy, Known, Receives, ObsOf, Stray, Alike, Tidy, NoTwins, OpenIn, Stranded;
    AlikeMeans(c, t, d, st, f, a);
    AlikeNeat(c, t, d, st);
    ToldObs(c, st, f, a);
    ToldObs(c, d.st, f, a);
    assert Receives(st, f) by { StateReceives(c, t, d, st, f, a); }
    assert PartedAt(ObsOf(Told(c, d.st), f, a), ObsOf(Told(c, st), f, a), |ObsOf(st.out, f, a)|);
  }

  lemma {:induction false} AlikeNeat(c: Caller, t: Track, d: Delivery, st: ReaderState)
    requires Alike(c, t, d, st)
    ensures Neat(st) && Neat(d.st)
  {}

  lemma {:induction false} StepSays(c: Caller, st: ReaderState, item: Item)
    ensures st.out <= Step(c, st, item).out
  {
    StepEmits(c, st, item);
  }

  lemma {:induction false} DeliverSays(c: Caller, d: Delivery, item: Item)
    ensures d.st.out <= Deliver(c, d, item).st.out
  {}

  lemma {:induction false} FoldSays(c: Caller, st: ReaderState, items: seq<Item>)
    ensures st.out <= Fold(c, st, items).out
    decreases |items|
  {
    hide Step;
    if items != [] {
      StepSays(c, st, items[0]);
      FoldSays(c, Step(c, st, items[0]), items[1..]);
    }
  }

  lemma {:induction false} DeliversSay(c: Caller, d: Delivery, items: seq<Item>)
    ensures d.st.out <= DeliverAll(c, d, items).st.out
    decreases |items|
  {
    hide Deliver;
    if items != [] {
      DeliverSays(c, d, items[0]);
      DeliversSay(c, Deliver(c, d, items[0]), items[1..]);
    }
  }

  lemma {:induction false} PartedForGood(c: Caller, d: Delivery, st: ReaderState, items: seq<Item>)
    requires Parted(d.st.out, st.out)
    ensures Parted(Told(c, DeliverAll(c, d, items).st), Told(c, Fold(c, st, items)))
  {
    FoldSays(c, st, items);
    DeliversSay(c, d, items);
    hide Parted, CloseAll, Fold, DeliverAll;
    StaysParted(d.st.out, st.out, Told(c, DeliverAll(c, d, items).st), Told(c, Fold(c, st, items)));
  }

  /** The caller is told the right things about every file and attribute if and only if no file is
      closed while an attribute of it is stranded. */
  lemma {:induction false} ToldExactly(c: Caller, t: Track, d: Delivery, st: ReaderState, items: seq<Item>)
    requires Alike(c, t, d, st) && KnownAttrids(items) && !FreesIn(c, t, items)
    ensures SameTold(Told(c, DeliverAll(c, d, items).st), Told(c, Fold(c, st, items))) <==> !StrandsIn(c, t, items)
    decreases |items|
  {
    hide Alike, Step, Deliver, TrackItem, Stranded, Confuses, SameTold, Told, Parted;
    if items == [] {
      if f :| f in t.open && Stranded(c, t, f) {
        EndParts(c, t, d, st, f);
        PartedNotSame(Told(c, d.st), Told(c, st));
      } else {
        EndAlike(c, t, d, st);
      }
    } else {
      var item := items[0];
      FirstKnown(items);
      if ClosesFile(t, item) && Stranded(c, t, item.filenum) {
        StepParts(c, t, d, st, item);
        PartedForGood(c, Deliver(c, d, item), Step(c, st, item), items[1..]);
        PartedNotSame(Told(c, DeliverAll(c, d, items).st), Told(c, Fold(c, st, items)));
      } else {
        StepAlike(c, t, d, st, item);
        ToldExactly(c, TrackItem(c, t, item), Deliver(c, d, item), Step(c, st, item), items[1..]);
      }
    }
  }

  lemma {:induction false} StepParts(c: Caller, t: Track, d: Delivery, st: ReaderState, item: Item)
    requires Alike(c, t, d, st) && ClosesFile(t, item) && Stranded(c, t, item.filenum)
    ensures Parted(Deliver(c, d, item).st.out, Step(c, st, item).out)
  {
    var f := item.filenum;
    hide Alike, CloseFound, Parted, Stranded;
    CloseParts(c, t, d, st, f, item.attrid == ATTR_FILENAME);
    if item.attrid == ATTR_FILENAME {
      StaysParted(CloseFound(c, d.st, f, true).out, CloseFound(c, st, f, true).out, Deliver(c, d, item).st.out, Step(c, st, item).out);
    }
  }

  // ---------- reads that free nothing and keep nothing back ----------

  /** The delivery has the track's open files and remembered attribute. */
  ghost predicate Alongside(t: Track, d: Delivery) {
    OpenIn(t, d.st) && d.cache == t.cache && Neat(d.st)
  }

  lemma {:induction false} CloseAlongside(c: Caller, t: Track, d: Delivery, f: u16, truncated: bool)
    requires Alongside(t, d)
    ensures Alongside(CloseTrack(t, f), Delivery(CloseFound(c, d.st, f, truncated), d.stray, if Known(d.st, f) then NoCache else d.cache))
    ensures !Known(CloseFound(c, d.st, f, truncated), f)
  {
    ClosedTrack(t, f);
    NeatFiles(d.st);
    assert f in t.open <==> Known(d.st, f);
    hide OpenIn, Neat, CloseFound, Known, CloseTrack;
    CloseOpen(c, t, d.st, f, truncated);
    ClosedNeatly(c, d.st, f, truncated);
  }

  lemma {:induction false} DataAlongside(c: Caller, t: Track, d: Delivery, item: Item)
    requires Alongside(t, d) && item.Rec? && item.attrid >= ATTR_APP_START && !(Confuses(t, item) && item.eoa)
    ensures Alongside(TrackItem(c, t, item), DeliverData(c, d, item.filenum, item.attrid, item.eoa, item.data))
  {
    var f, a, eoa, data := item.filenum, item.attrid, item.eoa, item.data;
    ConfusesIs(t, d.st, item);
    if Reads(t, f) {
      TrackOpen(c, t, item);
      var t1 := TrackItem(c, t, item);
      NeatFiles(d.st);
      hide Neat, AddData, HasState, Stray, TrackItem, OpenIn, Receives, Clash;
      SameReads(t, t1, d.st);
      DataOpen(c, t1, d.st, f, a, false, data);
      NeatData(c, d.st, f, a, false, data);
      DataOpen(c, t1, d.st, f, a, eoa, Stray(d, f, a) + data);
      NeatData(c, d.st, f, a, eoa, Stray(d, f, a) + data);
    }
  }

  lemma {:induction false} DeliverAlongside(c: Caller, t: Track, d: Delivery, item: Item)
    requires Alongside(t, d) && KnownAttrids([item]) && !(Confuses(t, item) && item.eoa)
    ensures Alongside(TrackItem(c, t, item), Deliver(c, d, item))
  {
    assert [item][0] == item;
    hide Neat, OpenIn, CloseFound, Start, Confuses, CloseTrack, DeliverData, Known;
    match item
    case Header =>
    case Rec(f, a, eoa, data) =>
      if a == ATTR_EOF {
        CloseAlongside(c, t, d, f, false);
      } else if a == ATTR_FILENAME {
        CloseAlongside(c, t, d, f, true);
        NeatFiles(CloseFound(c, d.st, f, true));
        StartOpen(c, CloseTrack(t, f), CloseFound(c, d.st, f, true), f, data);
        StartedNeatly(c, CloseFound(c, d.st, f, true), f, data);
      } else {
        DataAlongside(c, t, d, item);
      }
  }

  lemma {:induction false} HarmlessGentle(c: Caller, hs: seq<Handling>, t: Track, d: Delivery, items: seq<Item>)
    requires Terminated(hs) && Alongside(t, d) && KnownAttrids(items) && HarmlessIn(c, hs, t, items)
    ensures AllGentle(c, hs, d, items)
    decreases |items|
  {
    if items != [] {
      var item := items[0];
      FirstKnown(items);
      ConfusesIs(t, d.st, item);
      hide Neat, OpenIn, Deliver, TrackItem, ItemClashes, HandlingOf, Confuses;
      DeliverAlongside(c, t, d, item);
      HarmlessGentle(c, hs, TrackItem(c, t, item), Deliver(c, d, item), items[1..]);
    }
  }

  lemma {:induction false} HarmlessFreesNot(c: Caller, hs: seq<Handling>, t: Track, items: seq<Item>)
    requires Terminated(hs) && HarmlessIn(c, hs, t, items)
    ensures !FreesIn(c, t, items)
    decreases |items|
  {
    hide TrackItem, Confuses, HandlingOf;
    if items != [] {
      HarmlessFreesNot(c, hs, TrackItem(c, t, items[0]), items[1..]);
    }
  }

  lemma {:induction false} BeginAlike(c: Caller)
    ensures Alike(c, UNTRACKED, BEGIN, INITIAL) && Alongside(UNTRACKED, BEGIN)
  {}

  /** What is delivered of a whole archive, also where records are taken for other files' attributes,
      as long as none of them ends an attribute or has data that would be kept back. */
  lemma {:induction false} ArchiveDelivers(c: Caller, hs: seq<Handling>, ignores: Ignores, items: seq<Item>, cuts: Cuts)
    requires AllWellFormed(items) && items != [] && items[0] == Header
    requires Terminated(hs) && Serves(c, hs, ignores) && HarmlessIn(c, hs, UNTRACKED, items)
    ensures var x := ReadBytes(hs, ignores, Encode(items), cuts);
      x.result == Success && Join(x.events).out == Told(c, DeliverAll(c, BEGIN, items).st)
  {
    FullFinal(c, items);
    assert Begins(Encode(items));
    BeginAlike(c);
    ParsesProperly(Encode(items));
    IdleRefines(hs);
    hide HandlingOf, Refines, Alike, Alongside, AllGentle, Parse, Encode, ReadItems, DeliverAll, HarmlessIn, Begins, AllWellFormed;
    HarmlessGentle(c, hs, UNTRACKED, BEGIN, items);
    var m, n := ItemsRead(hs, ignores, c, IDLE, BEGIN, Parsed(items, Eof), cuts);
    EofDelivers(c, hs, m, DeliverAll(c, BEGIN, items), n);
  }

  lemma {:induction false} EofDelivers(c: Caller, hs: seq<Handling>, m: Machine, d: Delivery, n: nat)
    requires Terminated(hs) && Refines(hs, m, d) && forall a :: c.wants(a) <==> HandlingOf(hs, a).callback
    ensures var x := Halted(hs, m, Eof, n); x.result == Success && Join(x.events).out == Told(c, d.st)
  {
    hide HandlingOf, JoinOn, Tracks;
    AllFinish(hs, c, m, d);
  }

  /** For every archive in which no record ends an attribute that it is mistaken for, and every minimum
      sizes that keep back no data of a mistaken record: the caller is told the right things about
      every file and attribute if and only if no file is closed while an attribute of it is stranded,
      however each record was cut. */
  lemma {:induction false} RightExactly(c: Caller, hs: seq<Handling>, ignores: Ignores, items: seq<Item>, cuts: Cuts)
    requires AllWellFormed(items) && items != [] && items[0] == Header
    requires Terminated(hs) && Serves(c, hs, ignores) && HarmlessIn(c, hs, UNTRACKED, items)
    ensures var x := ReadBytes(hs, ignores, Encode(items), cuts);
      && x.result == Success
      && (SameTold(Join(x.events).out, Report(c, Encode(items))) <==> !StrandsIn(c, UNTRACKED, items))
  {
    FullFinal(c, items);
    ParsesProperly(Encode(items));
    BeginAlike(c);
    hide HandlingOf, Alike, Parse, Encode, ReadItems, DeliverAll, Fold, HarmlessIn, AllWellFormed, StrandsIn, FreesIn, SameTold;
    ArchiveDelivers(c, hs, ignores, items, cuts);
    HarmlessFreesNot(c, hs, UNTRACKED, items);
    ToldExactly(c, UNTRACKED, BEGIN, INITIAL, items);
  }

  lemma {:induction false} SmallSizes(c: Caller, hs: seq<Handling>, t: Track, items: seq<Item>)
    requires Terminated(hs) && !FreesIn(c, t, items) && forall a: u16 | c.wants(a) :: HandlingOf(hs, a).minSize <= 1
    ensures HarmlessIn(c, hs, t, items)
    decreases |items|
  {
    hide TrackItem, HandlingOf;
    if items != [] {
      SmallSizes(c, hs, TrackItem(c, t, items[0]), items[1..]);
    }
  }

  /** A caller that has all data passed on at once: for every archive, memory is misused exactly if a
      record ends an attribute that it is mistaken for, and otherwise the caller is told the right things
      exactly if no file is closed with an attribute stranded. */
  lemma {:induction false} PassedOnAtOnce(c: Caller, hs: seq<Handling>, ignores: Ignores, items: seq<Item>, cuts: Cuts)
    requires AllWellFormed(items) && items != [] && items[0] == Header
    requires Terminated(hs) && Serves(c, hs, ignores) && forall a: u16 | c.wants(a) :: HandlingOf(hs, a).minSize <= 1
    ensures var x := ReadBytes(hs, ignores, Encode(items), cuts);
      && (x.result.Dangling? <==> FreesIn(c, UNTRACKED, items))
      && ((x.result == Success && SameTold(Join(x.events).out, Report(c, Encode(items)))) <==>
            !FreesIn(c, UNTRACKED, items) && !StrandsIn(c, UNTRACKED, items))
  {
    FullFinal(c, items);
    hide HandlingOf, Parse, Encode, ReadItems, HarmlessIn, AllWellFormed, StrandsIn, FreesIn, SameTold;
    FreedExactly(hs, ignores, c, Encode(items), cuts);
    if !FreesIn(c, UNTRACKED, items) {
      SmallSizes(c, hs, UNTRACKED, items);
      RightExactly(c, hs, ignores, items, cuts);
    }
  }
}

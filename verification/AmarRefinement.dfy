/** The reader's own state, with its buffers and fragments, keeps up with what is delivered item by
    item, however the records are cut and whatever the minimum sizes. */
module AmarRefinement {
  import opened AmarFormat
  import opened Text
  import opened AmarSemantics
  import opened AmarMachine
  import opened AmarDelivery

  /** The caller that a handling array and a choice of ignored files make. */
  ghost predicate Serves(c: Caller, hs: seq<Handling>, ignores: Ignores)
    requires Terminated(hs)
  {
    (forall a :: c.wants(a) <==> HandlingOf(hs, a).callback) && (forall f, name :: c.ignores(f, name) <==> ignores(f, name))
  }

  // ---------- the view of buffers and fragments together ----------

  function AbsAttrs(js: Joined, f: u16, xs: seq<AttrBuf>): (r: seq<AttrState>)
    ensures |r| == |xs|
    ensures forall k | 0 <= k < |xs| :: r[k] == AttrState(xs[k].attrid, Pend(js, f, xs[k].attrid) + xs[k].buf)
  {
    seq(|xs|, k requires 0 <= k < |xs| => AttrState(xs[k].attrid, Pend(js, f, xs[k].attrid) + xs[k].buf))
  }

  function AbsFile(js: Joined, x: OpenFile): FileState {
    FileState(x.filenum, x.ignore, AbsAttrs(js, x.filenum, x.attrs))
  }

  function AbsFiles(js: Joined, xs: seq<OpenFile>): (r: seq<FileState>)
    ensures |r| == |xs|
    ensures forall k | 0 <= k < |xs| :: r[k] == AbsFile(js, xs[k])
  {
    seq(|xs|, k requires 0 <= k < |xs| => AbsFile(js, xs[k]))
  }

  function Abs(js: Joined, xs: seq<OpenFile>): ReaderState {
    ReaderState(AbsFiles(js, xs), js.out)
  }

  predicate GoodAttr(hs: seq<Handling>, x: AttrBuf)
    requires Terminated(hs)
  {
    && x.handling == HandlingOf(hs, x.attrid)
    && !x.wroteEoa
    && (!x.handling.callback || x.handling.minSize == 0 ==> x.buf == [])
    && (x.handling.minSize > 0 ==> |x.buf| < x.handling.minSize)
  }

  predicate GoodFile(hs: seq<Handling>, x: OpenFile)
    requires Terminated(hs)
  {
    && (forall j | 0 <= j < |x.attrs| :: GoodAttr(hs, x.attrs[j]))
    && (forall j, k | 0 <= j < k < |x.attrs| :: x.attrs[j].attrid != x.attrs[k].attrid)
  }

  predicate GoodFiles(hs: seq<Handling>, xs: seq<OpenFile>)
    requires Terminated(hs)
  {
    && (forall i | 0 <= i < |xs| :: GoodFile(hs, xs[i]))
    && (forall i, k | 0 <= i < k < |xs| :: xs[i].filenum != xs[k].filenum)
  }

  /** An open file has a state for the attribute. */
  predicate Holds(xs: seq<OpenFile>, f: u16, a: u16) {
    var k := FindOpen(xs, f);
    k < |xs| && FindBuf(xs[k].attrs, a) < |xs[k].attrs|
  }

  /** Bytes were delivered without an end only of attributes with a callback, and those of
      attributes without a state are the stray ones. */
  ghost predicate Strays(hs: seq<Handling>, xs: seq<OpenFile>, js: Joined, d: Delivery)
    requires Terminated(hs)
  {
    forall f: u16, a: u16 ::
      && (Pend(js, f, a) != [] ==> HandlingOf(hs, a).callback)
      && Stray(d, f, a) == if Holds(xs, f, a) then [] else Pend(js, f, a)
  }

  ghost predicate Tracks(hs: seq<Handling>, xs: seq<OpenFile>, js: Joined, d: Delivery)
    requires Terminated(hs)
  {
    GoodFiles(hs, xs) && d.st == Abs(js, xs) && Strays(hs, xs, js, d)
  }

  ghost predicate Refines(hs: seq<Handling>, m: Machine, d: Delivery)
    requires Terminated(hs)
  {
    Tracks(hs, m.files, Join(m.events), d) && m.cache == d.cache && Sound(m)
  }

  predicate SamePend(js: Joined, js': Joined, f: u16, a: u16) {
    forall g: u16, b: u16 | (g, b) != (f, a) :: Pend(js', g, b) == Pend(js, g, b)
  }

  lemma {:induction false} AbsAttrsFrame(js: Joined, js': Joined, f: u16, xs: seq<AttrBuf>)
    requires forall k | 0 <= k < |xs| :: Pend(js', f, xs[k].attrid) == Pend(js, f, xs[k].attrid)
    ensures AbsAttrs(js', f, xs) == AbsAttrs(js, f, xs)
  {}

  lemma {:induction false} AbsFilesFrame(js: Joined, js': Joined, xs: seq<OpenFile>)
    requires forall i, j | 0 <= i < |xs| && 0 <= j < |xs[i].attrs| ::
      Pend(js', xs[i].filenum, xs[i].attrs[j].attrid) == Pend(js, xs[i].filenum, xs[i].attrs[j].attrid)
    ensures AbsFiles(js', xs) == AbsFiles(js, xs)
  {
    forall k | 0 <= k < |xs| ensures AbsFile(js', xs[k]) == AbsFile(js, xs[k]) {
      AbsAttrsFrame(js, js', xs[k].filenum, xs[k].attrs);
    }
  }

  // ---------- files and attributes are found in the view where the reader finds them ----------

  lemma {:induction false} FoundFile(js: Joined, xs: seq<OpenFile>, f: u16)
    ensures FindFile(AbsFiles(js, xs), f) == FindOpen(xs, f)
  {
    FindFileIs(AbsFiles(js, xs), f, FindOpen(xs, f));
  }

  lemma {:induction false} FoundAttr(js: Joined, f: u16, attrs: seq<AttrBuf>, a: u16)
    ensures FindAttr(AbsAttrs(js, f, attrs), a) == FindBuf(attrs, a)
  {
    FindAttrIs(AbsAttrs(js, f, attrs), a, FindBuf(attrs, a));
  }

  /** Everything the reference reader is asked about a file and an attribute. */
  lemma {:induction false} ViewOf(js: Joined, xs: seq<OpenFile>, f: u16, a: u16)
    ensures FindFile(Abs(js, xs).files, f) == FindOpen(xs, f)
    ensures HasState(Abs(js, xs), f, a) <==> Holds(xs, f, a)
    ensures Receives(Abs(js, xs), f) <==> FindOpen(xs, f) < |xs| && !xs[FindOpen(xs, f)].ignore
  {
    FoundFile(js, xs, f);
    if FindOpen(xs, f) < |xs| {
      FoundAttr(js, f, xs[FindOpen(xs, f)].attrs, a);
    }
  }

  /** Only one file of that number, and only one attribute of that number in it. */
  lemma {:induction false} OnlyPlace(hs: seq<Handling>, xs: seq<OpenFile>, p: Place)
    requires Terminated(hs) && GoodFiles(hs, xs) && p.k < |xs| && p.j < |xs[p.k].attrs|
    ensures FindOpen(xs, xs[p.k].filenum) == p.k && FindBuf(xs[p.k].attrs, xs[p.k].attrs[p.j].attrid) == p.j
    ensures Holds(xs, xs[p.k].filenum, xs[p.k].attrs[p.j].attrid)
  {
    FindOpenIs(xs, xs[p.k].filenum, p.k);
    FindBufIs(xs[p.k].attrs, xs[p.k].attrs[p.j].attrid, p.j);
  }

  /** Changing one file's list of attributes leaves the others' where they are. */
  lemma {:induction false} HoldsAfter(xs: seq<OpenFile>, k: nat, attrs: seq<AttrBuf>, f: u16, a: u16)
    requires k < |xs| && FindOpen(xs, xs[k].filenum) == k
    ensures Holds(Replace(xs, k, attrs), f, a) <==>
      if f == xs[k].filenum then FindBuf(attrs, a) < |attrs| else Holds(xs, f, a)
  {
    FindOpenSame(xs, Replace(xs, k, attrs), f);
  }

  // ---------- one change at a time ----------

  /** The delivered and kept bytes of one attribute of file k change, and nothing else. */
  lemma {:induction false} AttrChanges(xs: seq<OpenFile>, k: nat, attrs': seq<AttrBuf>, js: Joined, js': Joined, a: u16)
    requires k < |xs| && forall i | 0 <= i < |xs| && i != k :: xs[i].filenum != xs[k].filenum
    requires SamePend(js, js', xs[k].filenum, a)
    ensures AbsFiles(js', Replace(xs, k, attrs')) == SetAttrs(AbsFiles(js, xs), k, AbsAttrs(js', xs[k].filenum, attrs'))
  {
    var ys := Replace(xs, k, attrs');
    forall i | 0 <= i < |xs| && i != k ensures AbsFile(js', ys[i]) == AbsFile(js, xs[i]) {
      AbsAttrsFrame(js, js', xs[i].filenum, xs[i].attrs);
    }
  }

  lemma {:induction false} Others(hs: seq<Handling>, xs: seq<OpenFile>, k: nat)
    requires Terminated(hs) && GoodFiles(hs, xs) && k < |xs|
    ensures forall i | 0 <= i < |xs| && i != k :: xs[i].filenum != xs[k].filenum
    ensures FindOpen(xs, xs[k].filenum) == k
  {
    FindOpenIs(xs, xs[k].filenum, k);
  }

  lemma {:induction false} StillGood(hs: seq<Handling>, xs: seq<OpenFile>, k: nat, attrs: seq<AttrBuf>)
    requires Terminated(hs) && GoodFiles(hs, xs) && k < |xs| && GoodFile(hs, OpenFile(0, false, attrs))
    ensures GoodFiles(hs, Replace(xs, k, attrs))
  {
    hide GoodAttr;
  }

  /** More data for an attribute with a state: its delivered and kept bytes grow by the data. */
  lemma {:induction false} Grown(hs: seq<Handling>, c: Caller, xs: seq<OpenFile>, js: Joined, js': Joined, d: Delivery, p: Place, y: AttrBuf, data: seq<byte>)
    requires Terminated(hs) && Tracks(hs, xs, js, d)
    requires p.k < |xs| && p.j < |xs[p.k].attrs| && !xs[p.k].ignore
    requires y.attrid == xs[p.k].attrs[p.j].attrid && GoodAttr(hs, y)
    requires c.wants(y.attrid) && HandlingOf(hs, y.attrid).callback
    requires var f := xs[p.k].filenum;
      && SamePend(js, js', f, y.attrid) && js'.out == js.out
      && Pend(js', f, y.attrid) + y.buf == Pend(js, f, y.attrid) + xs[p.k].attrs[p.j].buf + data
    ensures var f := xs[p.k].filenum;
      Tracks(hs, Replace(xs, p.k, xs[p.k].attrs[p.j := y]), js', d.(st := AddData(c, d.st, f, y.attrid, false, data)))
  {
    var f, a, attrs := xs[p.k].filenum, y.attrid, xs[p.k].attrs;
    var attrs' := attrs[p.j := y];
    var d' := d.(st := AddData(c, d.st, f, a, false, data));
    GrownGood(hs, xs[p.k], p.j, y);
    hide HandlingOf, Pend, SamePend, GoodAttr, GoodFile, GoodFiles, Holds, FindOpen, FindBuf, Strays, Stray, AddData, Abs, Replace;
    OnlyPlace(hs, xs, p);
    Others(hs, xs, p.k);
    StrayAt(hs, xs, js, d, f, a);
    StillGood(hs, xs, p.k, attrs');
    GrownView(hs, c, xs, js, js', p, y, data);
    FindBufSame(attrs', attrs, a);
    SameFound(attrs, attrs');
    SameStrays(d, d');
    StraysKept(hs, xs, js, js', d, p.k, attrs', a, d');
  }

  lemma {:induction false} GrownGood(hs: seq<Handling>, x: OpenFile, j: nat, y: AttrBuf)
    requires Terminated(hs) && GoodFile(hs, x) && j < |x.attrs| && GoodAttr(hs, y) && y.attrid == x.attrs[j].attrid
    ensures GoodFile(hs, OpenFile(0, false, x.attrs[j := y]))
  {
    hide GoodAttr;
  }

  lemma {:induction false} SameFound(attrs: seq<AttrBuf>, attrs': seq<AttrBuf>)
    requires |attrs'| == |attrs| && forall i | 0 <= i < |attrs| :: attrs'[i].attrid == attrs[i].attrid
    ensures forall b: u16 :: FindBuf(attrs', b) == FindBuf(attrs, b)
  {
    forall b: u16 ensures FindBuf(attrs', b) == FindBuf(attrs, b) {
      FindBufSame(attrs', attrs, b);
    }
  }

  lemma {:induction false} GrownView(hs: seq<Handling>, c: Caller, xs: seq<OpenFile>, js: Joined, js': Joined, p: Place, y: AttrBuf, data: seq<byte>)
    requires Terminated(hs) && GoodFiles(hs, xs)
    requires p.k < |xs| && p.j < |xs[p.k].attrs| && !xs[p.k].ignore
    requires y.attrid == xs[p.k].attrs[p.j].attrid && c.wants(y.attrid)
    requires var f := xs[p.k].filenum;
      && SamePend(js, js', f, y.attrid) && js'.out == js.out
      && Pend(js', f, y.attrid) + y.buf == Pend(js, f, y.attrid) + xs[p.k].attrs[p.j].buf + data
    ensures Abs(js', Replace(xs, p.k, xs[p.k].attrs[p.j := y])) == AddData(c, Abs(js, xs), xs[p.k].filenum, y.attrid, false, data)
  {
    var f, attrs := xs[p.k].filenum, xs[p.k].attrs;
    OnlyPlace(hs, xs, p);
    Others(hs, xs, p.k);
    assert forall i | 0 <= i < |attrs| && i != p.j :: attrs[i].attrid != y.attrid by { assert GoodFile(hs, xs[p.k]); }
    hide HandlingOf, Pend, SamePend, GoodAttr, GoodFile, GoodFiles, Holds, FindOpen, FindBuf;
    AttrChanges(xs, p.k, attrs[p.j := y], js, js', y.attrid);
    GrownAttrs(js, js', f, attrs, p.j, y, data);
    FoundFile(js, xs, f);
    FoundAttr(js, f, attrs, y.attrid);
  }

  lemma {:induction false} GrownAttrs(js: Joined, js': Joined, f: u16, attrs: seq<AttrBuf>, j: nat, y: AttrBuf, data: seq<byte>)
    requires j < |attrs| && y.attrid == attrs[j].attrid && SamePend(js, js', f, y.attrid)
    requires forall i | 0 <= i < |attrs| && i != j :: attrs[i].attrid != y.attrid
    requires Pend(js', f, y.attrid) + y.buf == Pend(js, f, y.attrid) + attrs[j].buf + data
    ensures AbsAttrs(js', f, attrs[j := y]) == AbsAttrs(js, f, attrs)[j := AttrState(y.attrid, AbsAttrs(js, f, attrs)[j].data + data)]
  {
    hide Pend;
  }

  /** Only attribute a of file k changes its place, its bytes or what is stray of it. */
  lemma {:induction false} StraysKept(hs: seq<Handling>, xs: seq<OpenFile>, js: Joined, js': Joined, d: Delivery, k: nat, attrs': seq<AttrBuf>, a: u16, d': Delivery)
    requires Terminated(hs) && Strays(hs, xs, js, d) && k < |xs| && FindOpen(xs, xs[k].filenum) == k
    requires SamePend(js, js', xs[k].filenum, a)
    requires forall b: u16 | b != a :: FindBuf(attrs', b) < |attrs'| <==> FindBuf(xs[k].attrs, b) < |xs[k].attrs|
    requires forall g: u16, b: u16 | (g, b) != (xs[k].filenum, a) :: Stray(d', g, b) == Stray(d, g, b)
    requires Pend(js', xs[k].filenum, a) != [] ==> HandlingOf(hs, a).callback
    requires Stray(d', xs[k].filenum, a) == if FindBuf(attrs', a) < |attrs'| then [] else Pend(js', xs[k].filenum, a)
    ensures Strays(hs, Replace(xs, k, attrs'), js', d')
  {
    hide HandlingOf, Pend, Stray, Holds, FindBuf, FindOpen, Replace;
    var ys, f := Replace(xs, k, attrs'), xs[k].filenum;
    forall g: u16, b: u16
      ensures Pend(js', g, b) != [] ==> HandlingOf(hs, b).callback
      ensures Stray(d', g, b) == if Holds(ys, g, b) then [] else Pend(js', g, b)
    {
      HoldsAfter(xs, k, attrs', g, b);
      HoldsHere(xs, k, b);
    }
  }

  lemma {:induction false} HoldsHere(xs: seq<OpenFile>, k: nat, a: u16)
    requires k < |xs| && FindOpen(xs, xs[k].filenum) == k
    ensures Holds(xs, xs[k].filenum, a) <==> FindBuf(xs[k].attrs, a) < |xs[k].attrs|
  {}

  /** An attribute whose last fragment was delivered leaves the reader's state. */
  lemma {:induction false} Ended(hs: seq<Handling>, c: Caller, xs: seq<OpenFile>, js: Joined, js': Joined, d: Delivery, p: Place, data: seq<byte>)
    requires Terminated(hs) && Tracks(hs, xs, js, d)
    requires p.k < |xs| && p.j < |xs[p.k].attrs| && !xs[p.k].ignore
    requires var f, x := xs[p.k].filenum, xs[p.k].attrs[p.j];
      && SamePend(js, js', f, x.attrid) && Pend(js', f, x.attrid) == []
      && js'.out == js.out + if c.wants(x.attrid) then [Attr(f, x.attrid, Pend(js, f, x.attrid) + x.buf + data, false)] else []
    ensures var f, a := xs[p.k].filenum, xs[p.k].attrs[p.j].attrid;
      Tracks(hs, Replace(xs, p.k, Without(xs[p.k].attrs, p.j)), js', d.(st := AddData(c, d.st, f, a, true, data)))
  {
    var f, attrs := xs[p.k].filenum, xs[p.k].attrs;
    var a, left := attrs[p.j].attrid, Without(attrs, p.j);
    OnlyPlace(hs, xs, p);
    Others(hs, xs, p.k);
    assert GoodFile(hs, xs[p.k]);
    assert Stray(d, f, a) == [];
    LeftGood(hs, xs[p.k], p.j);
    hide HandlingOf, Pend, SamePend, GoodAttr, GoodFile, GoodFiles, Holds, FindOpen, FindBuf, Without, Stray;
    StillGood(hs, xs, p.k, left);
    AttrChanges(xs, p.k, left, js, js', a);
    LeftAttrs(js, js', f, attrs, p.j);
    FoundFile(js, xs, f);
    FoundAttr(js, f, attrs, a);
    var d' := d.(st := AddData(c, d.st, f, a, true, data));
    assert Abs(js', Replace(xs, p.k, left)) == d'.st;
    LeftFound(attrs, p.j);
    assert forall g: u16, b: u16 :: Stray(d', g, b) == Stray(d, g, b) by { SameStrays(d, d'); }
    StraysKept(hs, xs, js, js', d, p.k, left, a, d');
  }

  lemma {:induction false} SameStrays(d: Delivery, d': Delivery)
    requires d'.stray == d.stray
    ensures forall g: u16, b: u16 :: Stray(d', g, b) == Stray(d, g, b)
  {}

  lemma {:induction false} LeftGood(hs: seq<Handling>, x: OpenFile, j: nat)
    requires Terminated(hs) && GoodFile(hs, x) && j < |x.attrs|
    ensures GoodFile(hs, OpenFile(0, false, Without(x.attrs, j)))
    ensures forall i | 0 <= i < |x.attrs| && i != j :: x.attrs[i].attrid != x.attrs[j].attrid
  {
    hide GoodAttr;
  }

  lemma {:induction false} LeftAttrs(js: Joined, js': Joined, f: u16, attrs: seq<AttrBuf>, j: nat)
    requires j < |attrs| && SamePend(js, js', f, attrs[j].attrid)
    requires forall i | 0 <= i < |attrs| && i != j :: attrs[i].attrid != attrs[j].attrid
    ensures AbsAttrs(js', f, Without(attrs, j)) == Without(AbsAttrs(js, f, attrs), j)
  {
    hide Pend;
  }

  lemma {:induction false} LeftFound(attrs: seq<AttrBuf>, j: nat)
    requires j < |attrs| && forall i | 0 <= i < |attrs| && i != j :: attrs[i].attrid != attrs[j].attrid
    ensures FindBuf(Without(attrs, j), attrs[j].attrid) == |attrs| - 1
    ensures forall b: u16 | b != attrs[j].attrid :: FindBuf(Without(attrs, j), b) < |attrs| - 1 <==> FindBuf(attrs, b) < |attrs|
  {
    var left := Without(attrs, j);
    FindBufIs(left, attrs[j].attrid, |left|);
    forall b: u16 | b != attrs[j].attrid
      ensures FindBuf(left, b) < |left| <==> FindBuf(attrs, b) < |attrs|
    {
      var i := FindBuf(attrs, b);
      if i < |attrs| {
        WithoutKeeps(attrs, j, i);
      } else {
        FindBufIs(left, b, |left|);
      }
    }
  }

  /** Setting up the state of an attribute takes in what was stray of it. */
  lemma {:induction false} TakenIn(hs: seq<Handling>, c: Caller, xs: seq<OpenFile>, js: Joined, d: Delivery, k: nat, a: u16)
    requires Terminated(hs) && Tracks(hs, xs, js, d) && k < |xs| && !xs[k].ignore
    requires FindBuf(xs[k].attrs, a) == |xs[k].attrs| && (c.wants(a) <==> HandlingOf(hs, a).callback)
    ensures var f := xs[k].filenum;
      Tracks(hs, Replace(xs, k, [AttrBuf(a, HandlingOf(hs, a), [], false)] + xs[k].attrs), js,
             Delivery(AddData(c, d.st, f, a, false, Stray(d, f, a)), d.stray - {(f, a)}, d.cache))
  {
    var f, attrs, x := xs[k].filenum, xs[k].attrs, AttrBuf(a, HandlingOf(hs, a), [], false);
    var more := [x] + attrs;
    var d' := Delivery(AddData(c, d.st, f, a, false, Stray(d, f, a)), d.stray - {(f, a)}, d.cache);
    Others(hs, xs, k);
    HoldsHere(xs, k, a);
    assert GoodFile(hs, xs[k]);
    FreshGood(hs, xs[k], a);
    FreshFound(x, attrs);
    StrayAt(hs, xs, js, d, f, a);
    Unstrayed(d, d', f, a);
    hide HandlingOf, Pend, GoodAttr, GoodFile, GoodFiles, Holds, FindOpen, FindBuf, Stray;
    StillGood(hs, xs, k, more);
    AttrChanges(xs, k, more, js, js, a);
    FreshAttrs(js, f, x, attrs);
    FoundFile(js, xs, f);
    FoundAttr(js, f, attrs, a);
    assert Abs(js, Replace(xs, k, more)) == d'.st;
    StraysKept(hs, xs, js, js, d, k, more, a, d');
  }

  lemma {:induction false} FreshGood(hs: seq<Handling>, x: OpenFile, a: u16)
    requires Terminated(hs) && GoodFile(hs, x) && FindBuf(x.attrs, a) == |x.attrs|
    ensures GoodFile(hs, OpenFile(0, false, [AttrBuf(a, HandlingOf(hs, a), [], false)] + x.attrs))
  {
    hide HandlingOf;
    var more := [AttrBuf(a, HandlingOf(hs, a), [], false)] + x.attrs;
    assert forall k | 0 < k < |more| :: more[k] == x.attrs[k - 1];
  }

  lemma {:induction false} FreshFound(x: AttrBuf, attrs: seq<AttrBuf>)
    ensures FindBuf([x] + attrs, x.attrid) == 0
    ensures forall b: u16 | b != x.attrid :: FindBuf([x] + attrs, b) < |attrs| + 1 <==> FindBuf(attrs, b) < |attrs|
  {
    assert ([x] + attrs)[1..] == attrs;
  }

  lemma {:induction false} FreshAttrs(js: Joined, f: u16, x: AttrBuf, attrs: seq<AttrBuf>)
    requires x.buf == []
    ensures AbsAttrs(js, f, [x] + attrs) == [AttrState(x.attrid, Pend(js, f, x.attrid))] + AbsAttrs(js, f, attrs)
    ensures [] + Pend(js, f, x.attrid) == Pend(js, f, x.attrid)
  {
    hide Pend;
    assert Pend(js, f, x.attrid) + x.buf == Pend(js, f, x.attrid);
  }

  /** An attribute without a state that is delivered to its end. */
  lemma {:induction false} Passed(hs: seq<Handling>, c: Caller, xs: seq<OpenFile>, js: Joined, js': Joined, d: Delivery, k: nat, a: u16, data: seq<byte>)
    requires Terminated(hs) && Tracks(hs, xs, js, d) && k < |xs| && !xs[k].ignore
    requires FindBuf(xs[k].attrs, a) == |xs[k].attrs| && (c.wants(a) <==> HandlingOf(hs, a).callback)
    requires var f := xs[k].filenum;
      && SamePend(js, js', f, a) && Pend(js', f, a) == []
      && js'.out == js.out + if c.wants(a) then [Attr(f, a, Pend(js, f, a) + data, false)] else []
    ensures var f := xs[k].filenum;
      Tracks(hs, xs, js', Delivery(AddData(c, d.st, f, a, true, Stray(d, f, a) + data), d.stray - {(f, a)}, NoCache))
  {
    var f, attrs := xs[k].filenum, xs[k].attrs;
    var d' := Delivery(AddData(c, d.st, f, a, true, Stray(d, f, a) + data), d.stray - {(f, a)}, NoCache);
    hide HandlingOf, Pend, GoodAttr, GoodFile, Holds, FindOpen, FindBuf, Stray, AddData, Abs, SamePend, Strays;
    Others(hs, xs, k);
    HoldsHere(xs, k, a);
    StrayAt(hs, xs, js, d, f, a);
    Unstrayed(d, d', f, a);
    hide GoodFiles;
    PassedView(c, xs, js, js', k, a, Pend(js, f, a) + data);
    assert Replace(xs, k, attrs) == xs;
    StraysKept(hs, xs, js, js', d, k, attrs, a, d');
  }

  lemma {:induction false} StrayAt(hs: seq<Handling>, xs: seq<OpenFile>, js: Joined, d: Delivery, f: u16, a: u16)
    requires Terminated(hs) && Strays(hs, xs, js, d)
    ensures Stray(d, f, a) == if Holds(xs, f, a) then [] else Pend(js, f, a)
    ensures Pend(js, f, a) != [] ==> HandlingOf(hs, a).callback
  {}

  lemma {:induction false} Unstrayed(d: Delivery, d': Delivery, f: u16, a: u16)
    requires d'.stray == d.stray - {(f, a)}
    ensures Stray(d', f, a) == []
    ensures forall g: u16, b: u16 | (g, b) != (f, a) :: Stray(d', g, b) == Stray(d, g, b)
  {}

  lemma {:induction false} PassedView(c: Caller, xs: seq<OpenFile>, js: Joined, js': Joined, k: nat, a: u16, data: seq<byte>)
    requires k < |xs| && !xs[k].ignore && FindBuf(xs[k].attrs, a) == |xs[k].attrs|
    requires FindOpen(xs, xs[k].filenum) == k && forall i | 0 <= i < |xs| && i != k :: xs[i].filenum != xs[k].filenum
    requires SamePend(js, js', xs[k].filenum, a)
    requires js'.out == js.out + if c.wants(a) then [Attr(xs[k].filenum, a, data, false)] else []
    ensures Abs(js', xs) == AddData(c, Abs(js, xs), xs[k].filenum, a, true, data)
  {
    var f := xs[k].filenum;
    hide Pend, FindOpen, FindBuf, SamePend;
    StatelessFrame(xs, k, js, js', a);
    FoundFile(js, xs, f);
    FoundAttr(js, f, xs[k].attrs, a);
    assert [] + data == data;
    assert SetAttrs(AbsFiles(js, xs), k, AbsFiles(js, xs)[k].attrs) == AbsFiles(js, xs);
  }

  /** Fragments of an attribute that has no state leave every file's view as it was. */
  lemma {:induction false} StatelessFrame(xs: seq<OpenFile>, k: nat, js: Joined, js': Joined, a: u16)
    requires k < |xs| && FindBuf(xs[k].attrs, a) == |xs[k].attrs|
    requires forall i | 0 <= i < |xs| && i != k :: xs[i].filenum != xs[k].filenum
    requires SamePend(js, js', xs[k].filenum, a)
    ensures AbsFiles(js', xs) == AbsFiles(js, xs)
  {
    hide Pend;
    AbsFilesFrame(js, js', xs);
  }

  /** Data delivered while the reader took it for another file's attribute. */
  lemma {:induction false} Astray(hs: seq<Handling>, c: Caller, xs: seq<OpenFile>, js: Joined, js': Joined, d: Delivery, k: nat, a: u16, data: seq<byte>)
    requires Terminated(hs) && Tracks(hs, xs, js, d) && k < |xs| && !xs[k].ignore
    requires c.wants(a) && HandlingOf(hs, a).callback
    requires SamePend(js, js', xs[k].filenum, a) && js'.out == js.out
    requires Pend(js', xs[k].filenum, a) == Pend(js, xs[k].filenum, a) + data
    requires HandlingOf(hs, a).minSize <= 1 || data == []
    ensures var f := xs[k].filenum;
      Tracks(hs, xs, js', if HasState(d.st, f, a) then d.(st := AddData(c, d.st, f, a, false, data))
                          else d.(stray := d.stray[(f, a) := Stray(d, f, a) + data]))
  {
    var f := xs[k].filenum;
    Others(hs, xs, k);
    ViewOf(js, xs, f, a);
    hide HandlingOf, Pend, SamePend, GoodFiles, Strays, AddData, Abs;
    if Holds(xs, f, a) {
      AstrayHeld(hs, c, xs, js, js', d, k, a, data);
    } else {
      AstrayStateless(hs, xs, js, js', d, k, a, data);
    }
  }

  lemma {:induction false} AstrayHeld(hs: seq<Handling>, c: Caller, xs: seq<OpenFile>, js: Joined, js': Joined, d: Delivery, k: nat, a: u16, data: seq<byte>)
    requires Terminated(hs) && Tracks(hs, xs, js, d) && k < |xs| && !xs[k].ignore && FindOpen(xs, xs[k].filenum) == k
    requires c.wants(a) && HandlingOf(hs, a).callback && Holds(xs, xs[k].filenum, a)
    requires SamePend(js, js', xs[k].filenum, a) && js'.out == js.out
    requires Pend(js', xs[k].filenum, a) == Pend(js, xs[k].filenum, a) + data
    requires HandlingOf(hs, a).minSize <= 1 || data == []
    ensures Tracks(hs, xs, js', d.(st := AddData(c, d.st, xs[k].filenum, a, false, data)))
  {
    var f, attrs := xs[k].filenum, xs[k].attrs;
    var j := FindBuf(attrs, a);
    assert GoodAttr(hs, attrs[j]) by { assert GoodFile(hs, xs[k]); }
    assert attrs[j].buf == [] || data == [];
    hide HandlingOf, Pend, SamePend, GoodAttr, GoodFiles, Strays, AddData, Abs;
    assert Pend(js', f, a) + attrs[j].buf == Pend(js, f, a) + attrs[j].buf + data;
    assert attrs[j := attrs[j]] == attrs && Replace(xs, k, attrs) == xs;
    Grown(hs, c, xs, js, js', d, Place(k, j), attrs[j], data);
  }

  lemma {:induction false} AstrayStateless(hs: seq<Handling>, xs: seq<OpenFile>, js: Joined, js': Joined, d: Delivery, k: nat, a: u16, data: seq<byte>)
    requires Terminated(hs) && Tracks(hs, xs, js, d) && k < |xs|
    requires HandlingOf(hs, a).callback && !Holds(xs, xs[k].filenum, a)
    requires SamePend(js, js', xs[k].filenum, a) && js'.out == js.out
    requires Pend(js', xs[k].filenum, a) == Pend(js, xs[k].filenum, a) + data
    ensures var f := xs[k].filenum; Tracks(hs, xs, js', d.(stray := d.stray[(f, a) := Stray(d, f, a) + data]))
  {
    var f, attrs := xs[k].filenum, xs[k].attrs;
    var d' := d.(stray := d.stray[(f, a) := Stray(d, f, a) + data]);
    Others(hs, xs, k);
    HoldsHere(xs, k, a);
    assert forall g: u16, b: u16 | (g, b) != (f, a) :: Stray(d', g, b) == Stray(d, g, b);
    assert Stray(d', f, a) == Pend(js', f, a);
    hide HandlingOf, Pend, GoodAttr, GoodFile, GoodFiles, Holds, FindOpen, FindBuf, Stray;
    StatelessFrame(xs, k, js, js', a);
    assert Replace(xs, k, attrs) == xs;
    StraysKept(hs, xs, js, js', d, k, attrs, a, d');
  }

  // ---------- hunks ----------

  /** What handle_hunk delivers and keeps makes up what there was and the new data. */
  lemma {:induction false} HunkJoins(hs: seq<Handling>, js: Joined, f: u16, x: AttrBuf, data: seq<byte>, eoa: bool)
    requires Terminated(hs) && GoodAttr(hs, x)
    ensures var h := HunkHandled(f, x, data, eoa); var js' := JoinOn(js, h.calls); var a := x.attrid;
      && h.attr.attrid == a && SamePend(js, js', f, a)
      && (eoa ==> Pend(js', f, a) == [] && js'.out == js.out + [Attr(f, a, Pend(js, f, a) + x.buf + data, false)])
      && (!eoa ==> GoodAttr(hs, h.attr) || !x.handling.callback)
      && (!eoa ==> js'.out == js.out && Pend(js', f, a) + h.attr.buf == Pend(js, f, a) + x.buf + data)
      && (!eoa && (x.handling.minSize <= 1 || data == []) && x.handling.callback ==> h.attr == x && Pend(js', f, a) == Pend(js, f, a) + data)
  {
    hide HandlingOf;
    var h, a := HunkHandled(f, x, data, eoa), x.attrid;
    assert Pend(js, f, a) + x.buf + data == Pend(js, f, a) + (x.buf + data);
    if x.buf == [] {
      assert Pend(js, f, a) + x.buf + data == Pend(js, f, a) + data;
    }
    if h.calls != [] {
      assert h.calls == [h.calls[0]] && h.calls[1..] == [];
      assert JoinOn(js, h.calls) == JoinStep(js, h.calls[0]);
    }
  }

  /** An attribute at p that has a callback, in a file that is not ignored. */
  predicate Live(m: Machine, p: Place, f: u16) {
    At(m, p) && m.files[p.k].filenum == f && !m.files[p.k].ignore && AttrAt(m, p).handling.callback
  }

  lemma {:induction false} HunkTracks(hs: seq<Handling>, c: Caller, m: Machine, d: Delivery, p: Place, f: u16, data: seq<byte>)
    requires Terminated(hs) && Tracks(hs, m.files, Join(m.events), d) && Live(m, p, f) && c.wants(AttrAt(m, p).attrid)
    ensures var m' := HunkAt(m, p, f, data, false);
      && Tracks(hs, m'.files, Join(m'.events), d.(st := AddData(c, d.st, f, AttrAt(m, p).attrid, false, data)))
      && Live(m', p, f) && AttrAt(m', p).attrid == AttrAt(m, p).attrid
  {
    var js, x := Join(m.events), AttrAt(m, p);
    var h := HunkHandled(f, x, data, false);
    assert GoodAttr(hs, x) by { assert GoodFile(hs, m.files[p.k]); }
    assert h.attr.handling == x.handling;
    hide HandlingOf, JoinOn, HunkHandled, Pend, SamePend, Tracks, AddData;
    HunkJoins(hs, js, f, x, data, false);
    JoinOnMore(NOTHING_YET, m.events, h.calls);
    GoodHandling(hs, x);
    Grown(hs, c, m.files, js, JoinOn(js, h.calls), d, p, h.attr, data);
  }

  lemma {:induction false} GoodHandling(hs: seq<Handling>, x: AttrBuf)
    requires Terminated(hs) && GoodAttr(hs, x)
    ensures HandlingOf(hs, x.attrid) == x.handling
  {}

  lemma {:induction false} EndTracks(hs: seq<Handling>, c: Caller, m: Machine, d: Delivery, p: Place, f: u16, data: seq<byte>)
    requires Terminated(hs) && Tracks(hs, m.files, Join(m.events), d) && Live(m, p, f) && c.wants(AttrAt(m, p).attrid)
    ensures var m1 := HunkAt(m, p, f, data, true); var m' := DropAttr(m1, p);
      Tracks(hs, m'.files, Join(m'.events), d.(st := AddData(c, d.st, f, AttrAt(m, p).attrid, true, data)))
  {
    var js, x := Join(m.events), AttrAt(m, p);
    var h := HunkHandled(f, x, data, true);
    assert GoodAttr(hs, x) by { assert GoodFile(hs, m.files[p.k]); }
    var attrs := m.files[p.k].attrs;
    assert Without(attrs[p.j := h.attr], p.j) == Without(attrs, p.j);
    assert DropAttr(HunkAt(m, p, f, data, true), p).files == Replace(m.files, p.k, Without(attrs, p.j));
    hide HandlingOf, JoinOn, HunkHandled, Pend, SamePend, Tracks, AddData, Without;
    HunkJoins(hs, js, f, x, data, true);
    JoinOnMore(NOTHING_YET, m.events, h.calls);
    Ended(hs, c, m.files, js, JoinOn(js, h.calls), d, p, data);
  }

  /** A whole record of an attribute with a state, in one hunk or two. */
  lemma {:induction false} HunksTrack(hs: seq<Handling>, c: Caller, m: Machine, d: Delivery, p: Place, f: u16, eoa: bool, data: seq<byte>, n: nat)
    requires Terminated(hs) && Tracks(hs, m.files, Join(m.events), d) && Live(m, p, f) && c.wants(AttrAt(m, p).attrid)
    ensures var m1 := Hunks(m, p, f, data, eoa, n); var m' := if eoa then DropAttr(m1, p) else m1;
      Tracks(hs, m'.files, Join(m'.events), d.(st := AddData(c, d.st, f, AttrAt(m, p).attrid, eoa, data)))
  {
    hide HandlingOf, HunkAt, Tracks, AddData, DropAttr, JoinOn;
    if |data| <= n {
      LastTracks(hs, c, m, d, p, f, eoa, data);
    } else {
      var a := AttrAt(m, p).attrid;
      HunkTracks(hs, c, m, d, p, f, data[..n]);
      var d1 := d.(st := AddData(c, d.st, f, a, false, data[..n]));
      LastTracks(hs, c, HunkAt(m, p, f, data[..n], false), d1, p, f, eoa, data[n..]);
      StillReceives(hs, m, d, p, f);
      AddDataInParts(c, d.st, f, a, eoa, data[..n], data[n..]);
      assert data[..n] + data[n..] == data;
    }
  }

  lemma {:induction false} StillReceives(hs: seq<Handling>, m: Machine, d: Delivery, p: Place, f: u16)
    requires Terminated(hs) && Tracks(hs, m.files, Join(m.events), d) && Live(m, p, f)
    ensures Receives(d.st, f)
  {
    OnlyPlace(hs, m.files, p);
    ViewOf(Join(m.events), m.files, f, AttrAt(m, p).attrid);
  }

  lemma {:induction false} LastTracks(hs: seq<Handling>, c: Caller, m: Machine, d: Delivery, p: Place, f: u16, eoa: bool, data: seq<byte>)
    requires Terminated(hs) && Tracks(hs, m.files, Join(m.events), d) && Live(m, p, f) && c.wants(AttrAt(m, p).attrid)
    ensures var m1 := HunkAt(m, p, f, data, eoa); var m' := if eoa then DropAttr(m1, p) else m1;
      Tracks(hs, m'.files, Join(m'.events), d.(st := AddData(c, d.st, f, AttrAt(m, p).attrid, eoa, data)))
  {
    hide HandlingOf, HunkAt, Tracks, AddData, DropAttr, JoinOn;
    if eoa {
      EndTracks(hs, c, m, d, p, f, data);
    } else {
      HunkTracks(hs, c, m, d, p, f, data);
    }
  }

  /** A record of an attribute nobody wants. */
  lemma {:induction false} UnwantedTracks(hs: seq<Handling>, c: Caller, m: Machine, d: Delivery, p: Place, f: u16, eoa: bool, data: seq<byte>)
    requires Terminated(hs) && Tracks(hs, m.files, Join(m.events), d)
    requires At(m, p) && m.files[p.k].filenum == f && !m.files[p.k].ignore
    requires !AttrAt(m, p).handling.callback && !c.wants(AttrAt(m, p).attrid)
    ensures var m' := if eoa then DropAttr(m, p) else m;
      Tracks(hs, m'.files, Join(m'.events), d.(st := AddData(c, d.st, f, AttrAt(m, p).attrid, eoa, data)))
  {
    var js, x, a := Join(m.events), AttrAt(m, p), AttrAt(m, p).attrid;
    assert GoodAttr(hs, x) by { assert GoodFile(hs, m.files[p.k]); }
    assert x.buf == [] && HandlingOf(hs, a) == x.handling;
    assert Pend(js, f, a) == [];
    hide HandlingOf, Pend, JoinOn;
    if eoa {
      hide Tracks, AddData;
      Ended(hs, c, m.files, js, js, d, p, data);
    } else {
      OnlyPlace(hs, m.files, p);
      FoundFile(js, m.files, f);
      FoundAttr(js, f, m.files[p.k].attrs, a);
      assert Pend(js, f, a) + x.buf == [];
      assert Grow(c, d.st.files[p.k].attrs, a, data) == d.st.files[p.k].attrs;
      assert SetAttrs(d.st.files, p.k, d.st.files[p.k].attrs) == d.st.files;
      SameStrays(d, d.(st := AddData(c, d.st, f, a, false, data)));
    }
  }

  /** A whole record of an attribute with a state. */
  lemma {:induction false} RecordedTracks(hs: seq<Handling>, c: Caller, m: Machine, d: Delivery, p: Place, f: u16, eoa: bool, data: seq<byte>, n: nat)
    requires Terminated(hs) && Tracks(hs, m.files, Join(m.events), d)
    requires At(m, p) && m.files[p.k].filenum == f && !m.files[p.k].ignore
    requires c.wants(AttrAt(m, p).attrid) <==> AttrAt(m, p).handling.callback
    ensures var m' := Recorded(m, p, f, eoa, data, n);
      Tracks(hs, m'.files, Join(m'.events), d.(st := AddData(c, d.st, f, AttrAt(m, p).attrid, eoa, data)))
      && m'.cache == if eoa then NoCache else Cached(f, AttrAt(m, p).attrid)
  {
    hide HandlingOf, Hunks, Tracks, AddData, DropAttr, JoinOn;
    if AttrAt(m, p).handling.callback {
      HunksTrack(hs, c, m, d, p, f, eoa, data, n);
    } else {
      UnwantedTracks(hs, c, m, d, p, f, eoa, data);
    }
  }

  /** An attribute in a single record, delivered in one fragment or two. */
  lemma {:induction false} DirectJoins(js: Joined, f: u16, a: u16, data: seq<byte>, n: nat)
    ensures var js' := JoinOn(js, Direct(f, a, data, n));
      && SamePend(js, js', f, a) && Pend(js', f, a) == []
      && js'.out == js.out + [Attr(f, a, Pend(js, f, a) + data, false)]
  {
    if |data| > n {
      var calls := Direct(f, a, data, n);
      assert calls[1..] == [calls[1]] && calls[1..][1..] == [];
      assert JoinOn(JoinStep(js, calls[0]), calls[1..]) == JoinStep(JoinStep(js, calls[0]), calls[1]);
      assert Pend(js, f, a) + data[..n] + data[n..] == Pend(js, f, a) + data;
    } else {
      assert Direct(f, a, data, n)[1..] == [];
    }
  }

  lemma {:induction false} DirectTracks(hs: seq<Handling>, c: Caller, m: Machine, d: Delivery, k: nat, a: u16, data: seq<byte>, n: nat)
    requires Terminated(hs) && Tracks(hs, m.files, Join(m.events), d) && k < |m.files| && !m.files[k].ignore
    requires Stateless(m, k, a) && (c.wants(a) <==> HandlingOf(hs, a).callback)
    ensures var f := m.files[k].filenum; var calls := if HandlingOf(hs, a).callback then Direct(f, a, data, n) else [];
      Tracks(hs, m.files, Join(m.events + calls),
             Delivery(AddData(c, d.st, f, a, true, Stray(d, f, a) + data), d.stray - {(f, a)}, NoCache))
  {
    var js, f := Join(m.events), m.files[k].filenum;
    hide HandlingOf, Pend, SamePend, AddData, Stray, Direct;
    if HandlingOf(hs, a).callback {
      DirectJoins(js, f, a, data, n);
      JoinOnMore(NOTHING_YET, m.events, Direct(f, a, data, n));
      hide JoinOn, Tracks;
      Passed(hs, c, m.files, js, JoinOn(js, Direct(f, a, data, n)), d, k, a, data);
    } else {
      assert m.events + [] == m.events && js.out + [] == js.out;
      StrayAt(hs, m.files, js, d, f, a);
      hide JoinOn, Tracks;
      Passed(hs, c, m.files, js, js, d, k, a, data);
    }
  }

  /** Its state is there, with what was stray of the attribute in it. */
  lemma {:induction false} SetUpTracks(hs: seq<Handling>, c: Caller, m: Machine, d: Delivery, k: nat, a: u16)
    requires Terminated(hs) && Tracks(hs, m.files, Join(m.events), d) && k < |m.files| && !m.files[k].ignore
    requires Stateless(m, k, a) && (c.wants(a) <==> HandlingOf(hs, a).callback)
    ensures var s := SetUp(hs, m, k, a); var f := m.files[k].filenum;
      && Tracks(hs, s.m.files, Join(s.m.events),
                Delivery(AddData(c, d.st, f, a, false, Stray(d, f, a)), d.stray - {(f, a)}, d.cache))
      && s.m.files[k].filenum == f && !s.m.files[k].ignore && AttrAt(s.m, s.p).handling == HandlingOf(hs, a)
  {
    hide HandlingOf, AddData, Stray, JoinOn, Tracks;
    TakenIn(hs, c, m.files, Join(m.events), d, k, a);
  }

  // ---------- a record ----------

  /** A record that is taken for its own file's attribute. */
  lemma {:induction false} OwnRecordTracks(hs: seq<Handling>, c: Caller, m: Machine, d: Delivery, k: nat, f: u16, a: u16, eoa: bool, data: seq<byte>, n: nat)
    requires Terminated(hs) && Tracks(hs, m.files, Join(m.events), d) && k < |m.files|
    requires m.files[k].filenum == f && !m.files[k].ignore && (c.wants(a) <==> HandlingOf(hs, a).callback)
    ensures var m' := WholeRecord(hs, m, k, f, a, eoa, data, n); var cache' := if eoa then NoCache else Cached(f, a);
      && Tracks(hs, m'.files, Join(m'.events),
                Delivery(AddData(c, d.st, f, a, eoa, Stray(d, f, a) + data), d.stray - {(f, a)}, cache'))
      && m'.cache == cache'
  {
    var cache' := if eoa then NoCache else Cached(f, a);
    var h := HandlingOf(hs, a);
    hide HandlingOf, Pend, AddData, Recorded, Direct, JoinOn, SetUp, FindBuf;
    if Stateless(m, k, a) {
      if eoa && (h.callback ==> |data| <= n || h.minSize <= n) {
        DirectTracks(hs, c, m, d, k, a, data, n);
      } else {
        var s := SetUp(hs, m, k, a);
        var d1 := Delivery(AddData(c, d.st, f, a, false, Stray(d, f, a)), d.stray - {(f, a)}, d.cache);
        SetUpTracks(hs, c, m, d, k, a);
        assert s.p.k == k by { SetUpFinds(hs, m, k, a); }
        RecordedTracks(hs, c, s.m, d1, s.p, f, eoa, data, n);
        OpenReceives(hs, m, d, k);
        AddDataInParts(c, d.st, f, a, eoa, Stray(d, f, a), data);
        Retagged(hs, Recorded(s.m, s.p, f, eoa, data, n), d1.(st := AddData(c, d1.st, f, a, eoa, data)), cache');
      }
    } else {
      StatedTracks(hs, c, m, d, k, f, a, eoa, data, n);
    }
  }

  /** The remembered attribute of a delivery does not matter to what it holds. */
  lemma {:induction false} Retagged(hs: seq<Handling>, m: Machine, d: Delivery, cache: Cache)
    requires Terminated(hs) && Tracks(hs, m.files, Join(m.events), d)
    ensures Tracks(hs, m.files, Join(m.events), d.(cache := cache))
  {
    assert forall f: u16, a: u16 :: Stray(d.(cache := cache), f, a) == Stray(d, f, a);
  }

  lemma {:induction false} OpenReceives(hs: seq<Handling>, m: Machine, d: Delivery, k: nat)
    requires Terminated(hs) && Tracks(hs, m.files, Join(m.events), d) && k < |m.files| && !m.files[k].ignore
    ensures Receives(d.st, m.files[k].filenum)
  {
    Others(hs, m.files, k);
    ViewOf(Join(m.events), m.files, m.files[k].filenum, 0);
  }

  lemma {:induction false} StatedTracks(hs: seq<Handling>, c: Caller, m: Machine, d: Delivery, k: nat, f: u16, a: u16, eoa: bool, data: seq<byte>, n: nat)
    requires Terminated(hs) && Tracks(hs, m.files, Join(m.events), d) && k < |m.files| && !Stateless(m, k, a)
    requires m.files[k].filenum == f && !m.files[k].ignore && (c.wants(a) <==> HandlingOf(hs, a).callback)
    ensures var m' := WholeRecord(hs, m, k, f, a, eoa, data, n); var cache' := if eoa then NoCache else Cached(f, a);
      && Tracks(hs, m'.files, Join(m'.events),
                Delivery(AddData(c, d.st, f, a, eoa, Stray(d, f, a) + data), d.stray - {(f, a)}, cache'))
      && m'.cache == cache'
  {
    var p := Place(k, FindBuf(m.files[k].attrs, a));
    var cache' := if eoa then NoCache else Cached(f, a);
    var d1 := d.(st := AddData(c, d.st, f, a, eoa, data));
    StatedFacts(hs, m, d, p);
    assert [] + data == data;
    hide HandlingOf, Pend, AddData, Recorded, JoinOn, FindBuf, FindOpen, Stray, Tracks, Holds, GoodAttr;
    RecordedTracks(hs, c, m, d, p, f, eoa, data, n);
    NothingStray(hs, Recorded(m, p, f, eoa, data, n), d1, f, a, cache');
  }

  lemma {:induction false} StatedFacts(hs: seq<Handling>, m: Machine, d: Delivery, p: Place)
    requires Terminated(hs) && Tracks(hs, m.files, Join(m.events), d) && At(m, p)
    ensures Stray(d, m.files[p.k].filenum, AttrAt(m, p).attrid) == []
    ensures GoodAttr(hs, AttrAt(m, p)) && AttrAt(m, p).handling == HandlingOf(hs, AttrAt(m, p).attrid)
  {
    hide HandlingOf, Pend, JoinOn, FindBuf, FindOpen, Stray, Abs;
    OnlyPlace(hs, m.files, p);
    StrayAt(hs, m.files, Join(m.events), d, m.files[p.k].filenum, AttrAt(m, p).attrid);
    assert GoodFile(hs, m.files[p.k]);
  }

  lemma {:induction false} NothingStray(hs: seq<Handling>, m: Machine, d: Delivery, f: u16, a: u16, cache: Cache)
    requires Terminated(hs) && Tracks(hs, m.files, Join(m.events), d) && Stray(d, f, a) == []
    ensures Tracks(hs, m.files, Join(m.events), Delivery(d.st, d.stray - {(f, a)}, cache))
  {
    var d' := Delivery(d.st, d.stray - {(f, a)}, cache);
    hide HandlingOf, Pend, JoinOn, Holds, GoodFiles;
    Unstrayed(d, d', f, a);
    assert forall g: u16, b: u16 :: Stray(d', g, b) == Stray(d, g, b);
  }
}

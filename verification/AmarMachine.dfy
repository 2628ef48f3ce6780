/** amar_read as a function of its input and of how much of each record was in the buffer: the open
    files, the remembered attribute and the callbacks made. */
module AmarMachine {
  import opened AmarFormat
  import opened Text
  import opened AmarSemantics

  /** One entry of the handling array; the array ends with the catch-all entry of attribute 0. */
  datatype Handling = Handling(attrid: u16, minSize: nat, callback: bool)

  predicate Terminated(hs: seq<Handling>) {
    exists k | 0 <= k < |hs| :: hs[k].attrid == 0
  }

  function HandlingOf(hs: seq<Handling>, a: u16): (h: Handling)
    requires Terminated(hs)
    ensures h in hs && (h.attrid == a || h.attrid == 0)
  {
    if hs[0].attrid == 0 || hs[0].attrid == a then hs[0] else HandlingOf(hs[1..], a)
  }

  datatype Event =
    | StartCall(filenum: u16, name: seq<byte>)
    | FragmentCall(filenum: u16, attrid: u16, data: seq<byte>, eoa: bool, truncated: bool)
    | FinishCall(filenum: u16, truncated: bool)

  datatype AttrBuf = AttrBuf(attrid: u16, handling: Handling, buf: seq<byte>, wroteEoa: bool)
  datatype OpenFile = OpenFile(filenum: u16, ignore: bool, attrs: seq<AttrBuf>)

  type Ignores = (u16, seq<byte>) -> bool

  /** The remembered attribute, a pointer in the code, is known by its file and its number. */
  datatype Machine = Machine(files: seq<OpenFile>, cache: Cache, events: seq<Event>)

  const IDLE := Machine([], NoCache, [])

  function FindOpen(files: seq<OpenFile>, f: u16): (i: nat)
    ensures i <= |files|
    ensures i < |files| ==> files[i].filenum == f
    ensures forall k | 0 <= k < i :: files[k].filenum != f
  {
    if files == [] || files[0].filenum == f then 0 else 1 + FindOpen(files[1..], f)
  }

  lemma FindOpenIs(files: seq<OpenFile>, f: u16, i: nat)
    requires i <= |files|
    requires i < |files| ==> files[i].filenum == f
    requires forall k | 0 <= k < i :: files[k].filenum != f
    ensures FindOpen(files, f) == i
  {}

  function FindBuf(attrs: seq<AttrBuf>, a: u16): (j: nat)
    ensures j <= |attrs|
    ensures j < |attrs| ==> attrs[j].attrid == a
    ensures forall k | 0 <= k < j :: attrs[k].attrid != a
  {
    if attrs == [] || attrs[0].attrid == a then 0 else 1 + FindBuf(attrs[1..], a)
  }

  lemma FindBufIs(attrs: seq<AttrBuf>, a: u16, j: nat)
    requires j <= |attrs|
    requires j < |attrs| ==> attrs[j].attrid == a
    requires forall k | 0 <= k < j :: attrs[k].attrid != a
    ensures FindBuf(attrs, a) == j
  {}

  function Replace(xs: seq<OpenFile>, i: nat, attrs: seq<AttrBuf>): (ys: seq<OpenFile>)
    requires i < |xs|
  {
    xs[i := xs[i].(attrs := attrs)]
  }

  // ---------- handle_hunk, finish_attr, finish_file ----------

  datatype Hunked = Hunked(attr: AttrBuf, calls: seq<Event>)

  /** handle_hunk: pass the data on, or keep it until there is enough or the attribute ends.  The
      callback is told the file of the record, whichever file the attribute belongs to. */
  function HunkHandled(f: u16, x: AttrBuf, data: seq<byte>, eoa: bool): Hunked {
    var min := x.handling.minSize;
    if min == 0 || (x.buf == [] && |data| >= min)
    then Hunked(x.(wroteEoa := eoa), [FragmentCall(f, x.attrid, data, eoa, false)])
    else
      var all := x.buf + data;
      if |all| >= min || eoa
      then Hunked(x.(buf := [], wroteEoa := eoa), [FragmentCall(f, x.attrid, all, eoa, false)])
      else Hunked(x.(buf := all), [])
  }

  function EndCall(f: u16, x: AttrBuf, truncated: bool): seq<Event> {
    if !x.wroteEoa && x.handling.callback then [FragmentCall(f, x.attrid, x.buf, true, truncated)] else []
  }

  function EndCalls(f: u16, attrs: seq<AttrBuf>): seq<Event> {
    if attrs == [] then [] else EndCall(f, attrs[0], true) + EndCalls(f, attrs[1..])
  }

  function FinishCalls(x: OpenFile, truncated: bool): seq<Event> {
    EndCalls(x.filenum, x.attrs) + if x.ignore then [] else [FinishCall(x.filenum, truncated)]
  }

  function FileFinished(m: Machine, i: nat, truncated: bool): Machine
    requires i < |m.files|
  {
    m.(files := Without(m.files, i), events := m.events + FinishCalls(m.files[i], truncated))
  }

  /** Finish the file with that number, if it is open, and forget the remembered attribute. */
  function KnownFinished(m: Machine, f: u16, truncated: bool): Machine {
    var i := FindOpen(m.files, f);
    if i == |m.files| then m else FileFinished(m, i, truncated).(cache := NoCache)
  }

  /** Close all open files, assuming that they have been truncated. */
  function AllFinished(m: Machine): (r: Machine)
    ensures r.files == []
    decreases |m.files|
  {
    if m.files == [] then m else AllFinished(FileFinished(m, 0, true))
  }

  function FileStarted(ignores: Ignores, m: Machine, f: u16, name: seq<byte>): Machine {
    m.(files := [OpenFile(f, ignores(f, name), [])] + m.files, events := m.events + [StartCall(f, name)])
  }

  // ---------- records of attributes ----------

  predicate Accepts(m: Machine, f: u16) {
    var i := FindOpen(m.files, f);
    i < |m.files| && !m.files[i].ignore
  }

  predicate Remembers(m: Machine, a: u16) {
    a >= ATTR_APP_START && m.cache.Cached? && m.cache.attrid == a
  }

  /** The file whose attribute a record is taken for: the remembered one's, if the number agrees. */
  function Owner(m: Machine, f: u16, a: u16): u16 {
    if Remembers(m, a) then m.cache.owner else f
  }

  /** ... which is that of another file. */
  predicate Mistakes(m: Machine, f: u16, a: u16) {
    Accepts(m, f) && Remembers(m, a) && m.cache.owner != f
  }

  /** Where the state of the attribute is: the file in the list, and the attribute in its list. */
  datatype Place = Place(k: nat, j: nat)

  predicate At(m: Machine, p: Place) {
    p.k < |m.files| && p.j < |m.files[p.k].attrs|
  }

  function AttrAt(m: Machine, p: Place): AttrBuf
    requires At(m, p)
  {
    m.files[p.k].attrs[p.j]
  }

  /** A hunk of a record of file f. */
  function HunkAt(m: Machine, p: Place, f: u16, data: seq<byte>, eoa: bool): (r: Machine)
    requires At(m, p)
    ensures At(r, p)
  {
    var h := HunkHandled(f, AttrAt(m, p), data, eoa);
    m.(files := Replace(m.files, p.k, m.files[p.k].attrs[p.j := h.attr]), events := m.events + h.calls)
  }

  /** A whole record as one or two hunks, depending on whether it is all in the buffer. */
  function Hunks(m: Machine, p: Place, f: u16, data: seq<byte>, eoa: bool, n: nat): (r: Machine)
    requires At(m, p)
    ensures At(r, p)
  {
    if |data| <= n then HunkAt(m, p, f, data, eoa)
    else HunkAt(HunkAt(m, p, f, data[..n], false), p, f, data[n..], eoa)
  }

  /** The calls for an attribute in a single record, without a state. */
  function Direct(f: u16, a: u16, data: seq<byte>, n: nat): seq<Event> {
    if |data| <= n then [FragmentCall(f, a, data, true, false)]
    else [FragmentCall(f, a, data[..n], false, false), FragmentCall(f, a, data[n..], true, false)]
  }

  function NewAttr(m: Machine, k: nat, a: u16, h: Handling): Machine
    requires k < |m.files|
  {
    m.(files := Replace(m.files, k, [AttrBuf(a, h, [], false)] + m.files[k].attrs))
  }

  function DropAttr(m: Machine, p: Place): Machine
    requires At(m, p)
  {
    m.(files := Replace(m.files, p.k, Without(m.files[p.k].attrs, p.j)))
  }

  /** The attribute's state, set up if there is none. */
  datatype Stated = Stated(m: Machine, p: Place)

  function SetUp(hs: seq<Handling>, m: Machine, k: nat, a: u16): (r: Stated)
    requires Terminated(hs) && k < |m.files|
    ensures At(r.m, r.p) && AttrAt(r.m, r.p).attrid == a
  {
    var j := FindBuf(m.files[k].attrs, a);
    if j < |m.files[k].attrs| then Stated(m, Place(k, j))
    else Stated(NewAttr(m, k, a, HandlingOf(hs, a)), Place(k, 0))
  }

  predicate Stateless(m: Machine, k: nat, a: u16)
    requires k < |m.files|
  {
    FindBuf(m.files[k].attrs, a) == |m.files[k].attrs|
  }

  /** A record that is whole, of an attribute with a state.  When the attribute has ended, it is
      looked for in the list of the record's file alone. */
  function Recorded(m: Machine, p: Place, f: u16, eoa: bool, data: seq<byte>, n: nat): Machine
    requires At(m, p)
  {
    var m1 := if AttrAt(m, p).handling.callback then Hunks(m, p, f, data, eoa, n) else m;
    if !eoa then m1.(cache := Cached(m.files[p.k].filenum, AttrAt(m, p).attrid))
    else if m.files[p.k].filenum == f then DropAttr(m1, p).(cache := NoCache)
    else m1.(cache := NoCache)
  }

  /** A record that is whole, of a file that is open and not ignored, taken for an attribute of the
      file at k.  n bytes of it are in the buffer. */
  function WholeRecord(hs: seq<Handling>, m: Machine, k: nat, f: u16, a: u16, eoa: bool, data: seq<byte>, n: nat): Machine
    requires Terminated(hs) && k < |m.files|
  {
    var h := HandlingOf(hs, a);
    if Stateless(m, k, a) && eoa && (h.callback ==> |data| <= n || h.minSize <= n)
    then Machine(m.files, NoCache, m.events + if h.callback then Direct(f, a, data, n) else [])
    else
      var s := SetUp(hs, m, k, a);
      Recorded(s.m, s.p, f, eoa, data, n)
  }

  /** The input ends inside a record whose data is wanted: what there is of it in the buffer. */
  function CutRecord(hs: seq<Handling>, m: Machine, k: nat, f: u16, a: u16, eoa: bool, part: seq<byte>): Machine
    requires Terminated(hs) && k < |m.files|
  {
    if Stateless(m, k, a) && eoa && HandlingOf(hs, a).minSize <= |part|
    then m.(events := m.events + [FragmentCall(f, a, part, false, false)])
    else
      var s := SetUp(hs, m, k, a);
      HunkAt(s.m, s.p, f, part, false)
  }

  /** The remembered attribute's file is always open (see SoundTurn). */
  function AppRecord(hs: seq<Handling>, m: Machine, f: u16, a: u16, eoa: bool, data: seq<byte>, n: nat): Machine
    requires Terminated(hs)
  {
    var k := FindOpen(m.files, Owner(m, f, a));
    if Accepts(m, f) && k < |m.files| then WholeRecord(hs, m, k, f, a, eoa, data, n) else m
  }

  /** One item. */
  function Turn(hs: seq<Handling>, ignores: Ignores, m: Machine, item: Item, n: nat): Machine
    requires Terminated(hs)
  {
    match item
    case Header => m
    case Rec(f, a, eoa, data) =>
      if a == ATTR_EOF then KnownFinished(m, f, false)
      else if a == ATTR_FILENAME then FileStarted(ignores, KnownFinished(m, f, true), f, data)
      else AppRecord(hs, m, f, a, eoa, data, n)
  }

  /** The attribute that ends with this record is freed, but stays in its own file's list, as it is
      looked for in the list of the record's file. */
  predicate Frees(m: Machine, item: Item) {
    item.Rec? && item.eoa && Mistakes(m, item.filenum, item.attrid)
  }

  // ---------- a whole read ----------

  datatype Result =
    | Success
    | Error(stop: Stop)
    | NotAnArchive
    /** An attribute of file owner was freed at a record of another file; it is still in the
        owner's list, and the list is walked when that file ends at the latest. */
    | Dangling(filenum: u16, owner: u16, attrid: u16)

  datatype Delivered = Delivered(events: seq<Event>, result: Result)

  /** How many bytes of a record were in the buffer, record by record. */
  type Cuts = seq<nat>

  function Cut(cuts: Cuts): nat { if cuts == [] then 0 else cuts[0] }

  function LaterCuts(cuts: Cuts): Cuts { if cuts == [] then [] else cuts[1..] }

  /** The handling of an attribute: the one its state was set up with, or the array's. */
  function HandlingAt(hs: seq<Handling>, m: Machine, k: nat, a: u16): Handling
    requires Terminated(hs) && k < |m.files|
  {
    var j := FindBuf(m.files[k].attrs, a);
    if j < |m.files[k].attrs| then m.files[k].attrs[j].handling else HandlingOf(hs, a)
  }

  /** Someone wants the data of a record of that file. */
  predicate Wanted(hs: seq<Handling>, m: Machine, f: u16, a: u16)
    requires Terminated(hs)
  {
    var k := FindOpen(m.files, Owner(m, f, a));
    Accepts(m, f) && k < |m.files| && HandlingAt(hs, m, k, a).callback
  }

  /** Where the reader stands at the end of the input, before it closes the open files. */
  function Stopping(hs: seq<Handling>, m: Machine, stop: Stop, n: nat): Machine
    requires Terminated(hs)
  {
    match stop
    case Padding(f) => KnownFinished(m, f, true)
    case EmptyName(f) => KnownFinished(m, f, true)
    case NameWithoutEoa(f) => KnownFinished(m, f, true)
    case Partial(f, a, eoa, data) =>
      if Wanted(hs, m, f, a)
      then CutRecord(hs, m, FindOpen(m.files, Owner(m, f, a)), f, a, eoa, if n < |data| then data[..n] else data)
      else AppRecord(hs, m, f, a, eoa, data, n)
    case _ => m
  }

  function Halted(hs: seq<Handling>, m: Machine, stop: Stop, n: nat): Delivered
    requires Terminated(hs)
  {
    var m1 := Stopping(hs, m, stop, n);
    if IsError(stop) then Delivered(m1.events, Error(stop))
    else if stop.Partial? && !Wanted(hs, m, stop.filenum, stop.attrid)
            && Frees(m, Rec(stop.filenum, stop.attrid, stop.eoa, stop.data))
    then Delivered(m1.events, Dangling(stop.filenum, m.cache.owner, stop.attrid))
    else Delivered(AllFinished(m1).events, Success)
  }

  function ReadItems(hs: seq<Handling>, ignores: Ignores, m: Machine, p: Parsed, cuts: Cuts): Delivered
    requires Terminated(hs)
    decreases |p.items|
  {
    if p.items == [] then Halted(hs, m, p.stop, Cut(cuts))
    else
      var item := p.items[0];
      var m1 := Turn(hs, ignores, m, item, Cut(cuts));
      if Frees(m, item) then Delivered(m1.events, Dangling(item.filenum, m.cache.owner, item.attrid))
      else ReadItems(hs, ignores, m1, Parsed(p.items[1..], p.stop), LaterCuts(cuts))
  }

  /** amar_read */
  function ReadBytes(hs: seq<Handling>, ignores: Ignores, b: seq<byte>, cuts: Cuts): Delivered
    requires Terminated(hs)
  {
    if !Begins(b) then Delivered([], NotAnArchive) else ReadItems(hs, ignores, IDLE, Parse(b), cuts)
  }

  // ---------- what every turn keeps ----------

  /** The remembered attribute is in its file's list. */
  predicate Sound(m: Machine) {
    m.cache.Cached? ==>
      var k := FindOpen(m.files, m.cache.owner); k < |m.files| && !Stateless(m, k, m.cache.attrid)
  }

  lemma {:induction false} FindOpenSame(xs: seq<OpenFile>, ys: seq<OpenFile>, f: u16)
    requires |xs| == |ys| && forall i | 0 <= i < |xs| :: xs[i].filenum == ys[i].filenum
    ensures FindOpen(xs, f) == FindOpen(ys, f)
  {
    FindOpenIs(xs, f, FindOpen(ys, f));
  }

  lemma {:induction false} FindBufSame(xs: seq<AttrBuf>, ys: seq<AttrBuf>, a: u16)
    requires |xs| == |ys| && forall i | 0 <= i < |xs| :: xs[i].attrid == ys[i].attrid
    ensures FindBuf(xs, a) == FindBuf(ys, a)
  {
    FindBufIs(xs, a, FindBuf(ys, a));
  }

  /** The lists have the same files and attributes, whatever is in the buffers. */
  predicate SameLists(m: Machine, m': Machine) {
    && |m'.files| == |m.files|
    && forall i | 0 <= i < |m.files| ::
         && m'.files[i].filenum == m.files[i].filenum && m'.files[i].ignore == m.files[i].ignore
         && |m'.files[i].attrs| == |m.files[i].attrs|
         && forall j | 0 <= j < |m.files[i].attrs| ::
              m'.files[i].attrs[j].attrid == m.files[i].attrs[j].attrid && m'.files[i].attrs[j].handling == m.files[i].attrs[j].handling
  }

  lemma HunkSameLists(m: Machine, p: Place, f: u16, data: seq<byte>, eoa: bool)
    requires At(m, p)
    ensures SameLists(m, HunkAt(m, p, f, data, eoa))
  {}

  lemma HunksSameLists(m: Machine, p: Place, f: u16, data: seq<byte>, eoa: bool, n: nat)
    requires At(m, p)
    ensures SameLists(m, Hunks(m, p, f, data, eoa, n))
  {
    hide HunkAt;
    if |data| <= n {
      HunkSameLists(m, p, f, data, eoa);
    } else {
      HunkSameLists(m, p, f, data[..n], false);
      HunkSameLists(HunkAt(m, p, f, data[..n], false), p, f, data[n..], eoa);
    }
  }

  /** Where an attribute was found, it is found again. */
  lemma FoundAgain(m: Machine, m': Machine, k: nat, a: u16)
    requires SameLists(m, m') && k < |m.files|
    ensures FindBuf(m'.files[k].attrs, a) == FindBuf(m.files[k].attrs, a)
    ensures FindOpen(m'.files, m.files[k].filenum) == FindOpen(m.files, m.files[k].filenum)
  {
    FindBufSame(m'.files[k].attrs, m.files[k].attrs, a);
    FindOpenSame(m'.files, m.files, m.files[k].filenum);
  }

  /** The hunk that ends an attribute has called for its end. */
  lemma HunksEnd(m: Machine, p: Place, f: u16, data: seq<byte>, n: nat)
    requires At(m, p)
    ensures AttrAt(Hunks(m, p, f, data, true, n), p).wroteEoa
  {}

  lemma SetUpFinds(hs: seq<Handling>, m: Machine, k: nat, a: u16)
    requires Terminated(hs) && k < |m.files|
    ensures var s := SetUp(hs, m, k, a);
      && s.p.k == k && |s.m.files| == |m.files| && FindBuf(s.m.files[k].attrs, a) == s.p.j
      && (forall i | 0 <= i < |m.files| :: s.m.files[i].filenum == m.files[i].filenum)
  {}

  lemma WholeRecordSound(hs: seq<Handling>, m: Machine, k: nat, f: u16, a: u16, eoa: bool, data: seq<byte>, n: nat)
    requires Terminated(hs) && k < |m.files| && k == FindOpen(m.files, m.files[k].filenum)
    ensures Sound(WholeRecord(hs, m, k, f, a, eoa, data, n))
  {
    hide HandlingOf, Hunks, SetUp, FindOpen, FindBuf;
    if !eoa {
      var s := SetUp(hs, m, k, a);
      SetUpFinds(hs, m, k, a);
      HunksSameLists(s.m, s.p, f, data, eoa, n);
      FoundAgain(s.m, Recorded(s.m, s.p, f, eoa, data, n), k, a);
      FindOpenSame(s.m.files, m.files, m.files[k].filenum);
    }
  }

  lemma FinishSound(m: Machine, f: u16, truncated: bool)
    requires Sound(m)
    ensures Sound(KnownFinished(m, f, truncated))
    ensures Sound(m) && KnownFinished(m, f, truncated).cache.Cached? ==> KnownFinished(m, f, truncated) == m && FindOpen(m.files, f) == |m.files|
  {}

  /** In the list behind a file that was just started, the others are found as before. */
  lemma StartSound(ignores: Ignores, m: Machine, f: u16, name: seq<byte>)
    requires Sound(m) && (m.cache.Cached? ==> FindOpen(m.files, f) == |m.files|)
    ensures Sound(FileStarted(ignores, m, f, name))
  {
    var m1 := FileStarted(ignores, m, f, name);
    if m.cache.Cached? {
      assert m1.files[1..] == m.files;
      assert m.cache.owner != f;
      assert FindOpen(m1.files, m.cache.owner) == 1 + FindOpen(m.files, m.cache.owner);
    }
  }

  /** The remembered attribute is always in its file's list, as long as none is freed too early. */
  lemma SoundTurn(hs: seq<Handling>, ignores: Ignores, m: Machine, item: Item, n: nat)
    requires Terminated(hs) && Sound(m)
    ensures Sound(Turn(hs, ignores, m, item, n))
  {
    hide HandlingOf, KnownFinished, FileStarted, WholeRecord, Sound;
    match item
    case Header =>
    case Rec(f, a, eoa, data) =>
      if a == ATTR_EOF {
        FinishSound(m, f, false);
      } else if a == ATTR_FILENAME {
        FinishSound(m, f, true);
        StartSound(ignores, KnownFinished(m, f, true), f, data);
      } else {
        var k := FindOpen(m.files, Owner(m, f, a));
        if k < |m.files| {
          WholeRecordSound(hs, m, k, f, a, eoa, data, n);
        }
      }
  }

  lemma OwnerIsOpen(m: Machine, f: u16, a: u16)
    requires Sound(m) && Accepts(m, f)
    ensures var k := FindOpen(m.files, Owner(m, f, a)); k < |m.files| && (Mistakes(m, f, a) ==> !Stateless(m, k, a))
  {}
}

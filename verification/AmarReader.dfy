/** The streaming reader: amar_read over a sliding window, with per-attribute reassembly. */
module AmarReader {
  import opened AmarFormat
  import opened Text
  import opened AmarSemantics
  import opened AmarWindow
  import opened AmarMachine

  /** How a turn of the loop ends. */
  datatype Outcome =
    | Continue
    | Break
    | Failed(stop: Stop)
    | Freed(filenum: u16, owner: u16, attrid: u16)

  /** What is read from here on, if n bytes of this record are in the buffer. */
  ghost predicate ReadsOn(hs: seq<Handling>, ignores: Ignores, m0: Machine, b0: seq<byte>, n: nat, d: Delivered)
    requires Terminated(hs)
  {
    forall cuts :: ReadItems(hs, ignores, m0, Parse(b0), [n] + cuts) == d
  }

  /** What a turn does to the rest of the read: from m0 and b0 on it is as from m and b on, or it ends. */
  ghost predicate Follows(hs: seq<Handling>, ignores: Ignores, m0: Machine, b0: seq<byte>, n: nat, m: Machine, b: seq<byte>, r: Outcome)
    requires Terminated(hs)
  {
    match r
    case Continue =>
      |b| < |b0| &&
      forall cuts :: ReadItems(hs, ignores, m0, Parse(b0), [n] + cuts) == ReadItems(hs, ignores, m, Parse(b), cuts)
    case Break => ReadsOn(hs, ignores, m0, b0, n, Delivered(AllFinished(m).events, Success))
    case Failed(stop) => ReadsOn(hs, ignores, m0, b0, n, Delivered(m.events, Error(stop)))
    case Freed(f, owner, a) => ReadsOn(hs, ignores, m0, b0, n, Delivered(m.events, Dangling(f, owner, a)))
  }

  lemma FirstCut(n: nat, cuts: Cuts)
    ensures Cut([n] + cuts) == n && LaterCuts([n] + cuts) == cuts
  {}

  lemma FollowsItem(hs: seq<Handling>, ignores: Ignores, m0: Machine, b0: seq<byte>, n: nat)
    requires Terminated(hs) && ParseOne(b0).Got?
    ensures var item := ParseOne(b0).item; var m := Turn(hs, ignores, m0, item, n);
      Follows(hs, ignores, m0, b0, n, m, b0[ParseOne(b0).len..],
              if Frees(m0, item) then Freed(item.filenum, m0.cache.owner, item.attrid) else Continue)
  {
    var item, len := ParseOne(b0).item, ParseOne(b0).len;
    var p := Parse(b0[len..]);
    assert Parse(b0) == Parsed([item] + p.items, p.stop);
    assert ([item] + p.items)[1..] == p.items;
    hide ParseOne, Turn, Frees, Cut, LaterCuts;
    forall cuts ensures Cut([n] + cuts) == n && LaterCuts([n] + cuts) == cuts { FirstCut(n, cuts); }
  }

  lemma FollowsStop(hs: seq<Handling>, ignores: Ignores, m0: Machine, b0: seq<byte>, n: nat)
    requires Terminated(hs) && ParseOne(b0).Halt?
    ensures ReadsOn(hs, ignores, m0, b0, n, Halted(hs, m0, ParseOne(b0).stop, n))
  {
    hide ParseOne, Halted, Cut;
    forall cuts ensures Cut([n] + cuts) == n { FirstCut(n, cuts); }
  }

  /** At the end of the input there is nothing to do but close the open files. */
  lemma AtEnd(hs: seq<Handling>, ignores: Ignores, m: Machine, cuts: Cuts)
    requires Terminated(hs)
    ensures ReadItems(hs, ignores, m, Parse([]), cuts) == Delivered(AllFinished(m).events, Success)
  {
    hide AllFinished;
  }

  /** The data of a record that is in the input, whole or cut off. */
  function Data(rest: seq<byte>, size: nat): seq<byte> {
    rest[..Min(size, |rest|)]
  }

  /** A record of an application attribute: used whole, or cut off by the end of the input. */
  lemma FollowsApp(hs: seq<Handling>, ignores: Ignores, m0: Machine, b0: seq<byte>, n: nat, m: Machine, b: seq<byte>)
    requires Terminated(hs) && RECORD_SIZE <= |b0| && IsApp(DecodeRecordHeader(b0))
    requires var h := DecodeRecordHeader(b0); var rest := b0[RECORD_SIZE..];
      && (Wanted(hs, m0, h.filenum, h.attrid) ==> h.size <= |rest|)
      && m == AppRecord(hs, m0, h.filenum, h.attrid, h.eoa, Data(rest, h.size), n)
      && b == rest[Min(h.size, |rest|)..]
    ensures var h := DecodeRecordHeader(b0);
      Follows(hs, ignores, m0, b0, n, m, b,
              if h.eoa && Mistakes(m0, h.filenum, h.attrid) then Freed(h.filenum, m0.cache.owner, h.attrid) else Continue)
  {
    hide DecodeRecordHeader, AppRecord, Wanted, Mistakes, AllFinished;
    var h, rest := DecodeRecordHeader(b0), b0[RECORD_SIZE..];
    if h.size <= |rest| {
      assert b0[RECORD_SIZE..RECORD_SIZE + h.size] == rest[..h.size] && b0[RECORD_SIZE + h.size..] == rest[h.size..];
      FollowsItem(hs, ignores, m0, b0, n);
    } else {
      assert rest[..|rest|] == rest && rest[|rest|..] == [];
      FollowsStop(hs, ignores, m0, b0, n);
      forall cuts ensures ReadItems(hs, ignores, m, Parse(b), cuts) == Delivered(AllFinished(m).events, Success) {
        AtEnd(hs, ignores, m, cuts);
      }
    }
  }

  lemma FollowsCut(hs: seq<Handling>, ignores: Ignores, m0: Machine, b0: seq<byte>, n: nat, m: Machine, b: seq<byte>)
    requires Terminated(hs) && RECORD_SIZE <= |b0| && IsApp(DecodeRecordHeader(b0))
    requires var h := DecodeRecordHeader(b0); var rest := b0[RECORD_SIZE..];
      && |rest| < h.size && n <= |rest| && Wanted(hs, m0, h.filenum, h.attrid)
      && m == CutRecord(hs, m0, FindOpen(m0.files, Owner(m0, h.filenum, h.attrid)), h.filenum, h.attrid, h.eoa, rest[..n])
    ensures Follows(hs, ignores, m0, b0, n, m, b, Break)
  {
    hide DecodeRecordHeader, CutRecord, Wanted, AllFinished, Owner;
    var rest := b0[RECORD_SIZE..];
    assert rest[..|rest|] == rest;
    FollowsStop(hs, ignores, m0, b0, n);
  }

  /** What a filename record does once the previous file of that number is closed. */
  ghost predicate NameFollows(h: RecordHeader, ignores: Ignores, m1: Machine, rest1: seq<byte>, m: Machine, rest: seq<byte>, r: Outcome) {
    if h.size == 0 then
      m == m1 && r == if NamelessStop(h.filenum, rest1).Padding? then Break else Failed(EmptyName(h.filenum))
    else if !h.eoa then m == m1 && r == Failed(NameWithoutEoa(h.filenum))
    else h.size <= |rest1| && m == FileStarted(ignores, m1, h.filenum, rest1[..h.size]) && rest == rest1[h.size..] && r == Continue
  }

  predicate IsName(h: RecordHeader) {
    h.filenum != MAGIC_FILENUM && h.size <= MAX_RECORD_DATA_SIZE && h.attrid == ATTR_FILENAME
  }

  predicate IsApp(h: RecordHeader) {
    h.filenum != MAGIC_FILENUM && h.attrid >= ATTR_APP_START && h.size <= MAX_RECORD_DATA_SIZE
  }

  lemma FollowsName(hs: seq<Handling>, ignores: Ignores, m0: Machine, b0: seq<byte>, n: nat, m: Machine, b: seq<byte>, r: Outcome)
    requires Terminated(hs) && RECORD_SIZE <= |b0| && IsName(DecodeRecordHeader(b0))
    requires var h := DecodeRecordHeader(b0); var rest := b0[RECORD_SIZE..];
      if |rest| < h.size then r == Break && m == m0
      else NameFollows(h, ignores, KnownFinished(m0, h.filenum, true), rest, m, b, r)
    ensures Follows(hs, ignores, m0, b0, n, m, b, r)
  {
    hide DecodeRecordHeader, KnownFinished, AllFinished, FileStarted, NamelessStop;
    var h, rest := DecodeRecordHeader(b0), b0[RECORD_SIZE..];
    if 0 < h.size <= |rest| && h.eoa {
      assert b0[RECORD_SIZE..RECORD_SIZE + h.size] == rest[..h.size] && b0[RECORD_SIZE + h.size..] == rest[h.size..];
      FollowsItem(hs, ignores, m0, b0, n);
    } else {
      FollowsStop(hs, ignores, m0, b0, n);
    }
  }

  class Reader {
    const window: Window
    const handlings: seq<Handling>
    const ignores: Ignores

    var files: seq<OpenFile>
    /** The attribute used last: its file and its number. */
    var cache: Cache
    /** The callbacks made so far. */
    var events: seq<Event>

    ghost function State(): Machine
      reads this`files, this`cache, this`events
    {
      Machine(files, cache, events)
    }

    ghost predicate Valid()
      reads this, window, window.buf
    {
      Terminated(handlings) && window.Valid() && Sound(State())
    }

    constructor (window: Window, handlings: seq<Handling>, ignores: Ignores)
      requires window.Valid() && Terminated(handlings)
      ensures this.window == window && this.handlings == handlings && this.ignores == ignores
      ensures Valid() && State() == IDLE
    {
      this.window, this.handlings, this.ignores := window, handlings, ignores;
      files, cache, events := [], NoCache, [];
    }

    /** handle_hunk: pass the data on, or keep it until there is enough or the attribute ends. */
    method HandleHunk(f: u16, x: AttrBuf, data: seq<byte>, eoa: bool) returns (y: AttrBuf)
      modifies this`events
      ensures y == HunkHandled(f, x, data, eoa).attr
      ensures events == old(events) + HunkHandled(f, x, data, eoa).calls
    {
      y := x;
      var hdl := x.handling;
      if hdl.minSize == 0 || (x.buf == [] && |data| >= hdl.minSize) {
        events := events + [FragmentCall(f, x.attrid, data, eoa, false)];
        y := y.(wroteEoa := eoa);
      } else {
        y := y.(buf := x.buf + data);
        if |y.buf| >= hdl.minSize || eoa {
          events := events + [FragmentCall(f, x.attrid, y.buf, eoa, false)];
          y := y.(buf := [], wroteEoa := eoa);
        }
      }
    }

    /** finish_attr: an attribute that was not ended is ended now, with what is left of it. */
    method FinishAttr(f: u16, x: AttrBuf, truncated: bool)
      modifies this`events
      ensures events == old(events) + EndCall(f, x, truncated)
    {
      if !x.wroteEoa && x.handling.callback {
        events := events + [FragmentCall(f, x.attrid, x.buf, true, truncated)];
      }
    }

    /** finish_file */
    method FinishFile(i: nat, truncated: bool)
      requires i < |files|
      modifies this`events, this`files
      ensures State() == FileFinished(old(State()), i, truncated)
    {
      var x := files[i];
      files := files[..i] + files[i + 1..];
      var n := 0;
      ghost var calls := EndCalls(x.filenum, x.attrs);
      while n < |x.attrs|
        invariant n <= |x.attrs| && files == Without(old(files), i)
        invariant events + EndCalls(x.filenum, x.attrs[n..]) == old(events) + calls
      {
        assert x.attrs[n..][0] == x.attrs[n] && x.attrs[n..][1..] == x.attrs[n + 1..];
        ghost var before := events;
        FinishAttr(x.filenum, x.attrs[n], true);
        Regroup(before, EndCall(x.filenum, x.attrs[n], true), EndCalls(x.filenum, x.attrs[n + 1..]));
        n := n + 1;
      }
      assert x.attrs[n..] == [] && events + [] == events && calls + [] == calls;
      Regroup(old(events), calls, [FinishCall(x.filenum, truncated)]);
      if !x.ignore {
        events := events + [FinishCall(x.filenum, truncated)];
      }
    }

    lemma Regroup(x: seq<Event>, y: seq<Event>, z: seq<Event>)
      ensures x + y + z == x + (y + z)
    {}

    // ---------- looking things up ----------

    method LookupFile(f: u16) returns (i: nat)
      ensures i == FindOpen(files, f)
    {
      i := 0;
      while i < |files| && files[i].filenum != f
        invariant i <= |files|
        invariant forall k | 0 <= k < i :: files[k].filenum != f
      {
        i := i + 1;
      }
      FindOpenIs(files, f, i);
    }

    /** Where an attribute of an open file is, if it has one. */
    method Lookup(k: nat, a: u16) returns (j: nat)
      requires k < |files|
      ensures j == FindBuf(files[k].attrs, a)
    {
      j := 0;
      while j < |files[k].attrs| && files[k].attrs[j].attrid != a
        invariant j <= |files[k].attrs|
        invariant forall i | 0 <= i < j :: files[k].attrs[i].attrid != a
      {
        j := j + 1;
      }
      FindBufIs(files[k].attrs, a, j);
    }

    /** The handling array entry for an attribute number. */
    method FindHandling(a: u16) returns (h: Handling)
      requires Terminated(handlings)
      ensures h == HandlingOf(handlings, a)
    {
      var k := 0;
      while handlings[k].attrid != 0 && handlings[k].attrid != a
        invariant k < |handlings| && Terminated(handlings[k..])
        invariant HandlingOf(handlings[k..], a) == HandlingOf(handlings, a)
        decreases |handlings| - k
      {
        assert handlings[k..][1..] == handlings[k + 1..];
        k := k + 1;
      }
      h := handlings[k];
    }

    // ---------- one data record ----------

    /** A hunk of an attribute's data. */
    method Hunk(p: Place, f: u16, data: seq<byte>, eoa: bool)
      requires At(State(), p)
      modifies this`events, this`files
      ensures State() == HunkAt(old(State()), p, f, data, eoa)
    {
      var y := HandleHunk(f, files[p.k].attrs[p.j], data, eoa);
      files := Replace(files, p.k, files[p.k].attrs[p.j := y]);
    }

    /** The next bytes of the input, if there are that many. */
    method Take(size: nat) returns (enough: bool, data: seq<byte>)
      requires window.Valid() && size <= MAX_RECORD_DATA_SIZE
      modifies window, window.buf
      ensures window.Valid() && (window.buf == old(window.buf) || fresh(window.buf))
      ensures enough <==> size <= |old(window.Rest())|
      ensures enough ==> data == old(window.Rest())[..size] && window.Rest() == old(window.Rest())[size..]
    {
      hide Window.Valid, Window.Rest;
      data := [];
      enough := window.AtLeast(size);
      if enough {
        data := window.Available()[..size];
        assert data == window.Rest()[..size];
        window.Skip(size);
      }
    }

    /** Everything that is in the buffer now. */
    method TakeBuffered() returns (data: seq<byte>)
      requires window.Valid()
      modifies window, window.buf
      ensures window.Valid() && window.buf == old(window.buf)
      ensures |data| == old(window.bufLen) <= |old(window.Rest())|
      ensures data == old(window.Rest())[..|data|] && window.Rest() == old(window.Rest())[|data|..]
    {
      hide Window.Valid, Window.Rest;
      data := window.Available();
      assert data == window.Rest()[..|data|];
      window.Skip(|data|);
    }

    /** A record of an attribute with a state: pass on what there is in the buffer; then, if the rest
        of the record is in the input, that too. */
    method RecordHunks(p: Place, f: u16, size: nat, eoa: bool) returns (enough: bool)
      requires window.Valid() && At(State(), p) && size <= MAX_RECORD_DATA_SIZE
      modifies this`events, this`files, window, window.buf
      ensures window.Valid() && (window.buf == old(window.buf) || fresh(window.buf))
      ensures enough <==> size <= |old(window.Rest())|
      ensures enough ==> window.Rest() == old(window.Rest())[size..]
      ensures enough ==> State() == Hunks(old(State()), p, f, old(window.Rest())[..size], eoa, old(window.bufLen))
      ensures !enough ==> old(window.bufLen) <= |old(window.Rest())|
      ensures !enough ==> State() == HunkAt(old(State()), p, f, old(window.Rest())[..old(window.bufLen)], false)
    {
      hide Window.Valid, Window.Rest, HunkAt;
      ghost var rest := window.Rest();
      var data;
      if window.bufLen >= size {
        assert size <= |window.Available()| <= |rest|;
        enough, data := Take(size);
        Hunk(p, f, data, eoa);
      } else {
        var first := TakeBuffered();
        Hunk(p, f, first, false);
        enough, data := Take(size - |first|);
        if enough {
          SplitAt(rest, |first|, size);
          Hunk(p, f, data, eoa);
        }
      }
    }

    /** The shortcut for a wanted attribute in a single record: it needs no state.  When only a large
        enough part is in the buffer, that part goes first. */
    method DirectRecord(f: u16, a: u16, size: nat) returns (enough: bool)
      requires window.Valid() && size <= MAX_RECORD_DATA_SIZE
      modifies this`events, window, window.buf
      ensures window.Valid() && (window.buf == old(window.buf) || fresh(window.buf))
      ensures enough <==> size <= |old(window.Rest())|
      ensures enough ==> window.Rest() == old(window.Rest())[size..]
      ensures enough ==> events == old(events) + Direct(f, a, old(window.Rest())[..size], old(window.bufLen))
      ensures !enough ==> old(window.bufLen) <= |old(window.Rest())|
      ensures !enough ==> events == old(events) + [FragmentCall(f, a, old(window.Rest())[..old(window.bufLen)], false, false)]
    {
      hide Window.Valid, Window.Rest;
      if window.bufLen >= size {
        assert size <= |window.Available()| <= |window.Rest()|;
        enough := LastFragment(f, a, size);
      } else {
        ghost var rest, n := window.Rest(), window.bufLen;
        var first := TakeBuffered();
        events := events + [FragmentCall(f, a, first, false, false)];
        enough := LastFragment(f, a, size - |first|);
        if enough {
          Regroup(old(events), [FragmentCall(f, a, first, false, false)], [FragmentCall(f, a, rest[n..][..size - n], true, false)]);
          SplitAt(rest, n, size);
        }
      }
    }

    lemma SplitAt(rest: seq<byte>, n: nat, size: nat)
      requires n <= size <= |rest|
      ensures rest[..size][..n] == rest[..n] && rest[..size][n..] == rest[n..][..size - n]
      ensures rest[n..][size - n..] == rest[size..]
    {}

    /** The end of an attribute's data, if it is in the input. */
    method LastFragment(f: u16, a: u16, size: nat) returns (enough: bool)
      requires window.Valid() && size <= MAX_RECORD_DATA_SIZE
      modifies this`events, window, window.buf
      ensures window.Valid() && (window.buf == old(window.buf) || fresh(window.buf))
      ensures enough <==> size <= |old(window.Rest())|
      ensures enough ==> window.Rest() == old(window.Rest())[size..]
      ensures enough ==> events == old(events) + [FragmentCall(f, a, old(window.Rest())[..size], true, false)]
      ensures !enough ==> events == old(events)
    {
      hide Window.Valid, Window.Rest;
      var data;
      enough, data := Take(size);
      if enough {
        events := events + [FragmentCall(f, a, data, true, false)];
      }
    }

    /** An attribute in a single record, without a state. */
    method SingleRecord(f: u16, a: u16, size: nat, wanted: bool) returns (enough: bool)
      requires window.Valid() && size <= MAX_RECORD_DATA_SIZE
      modifies this`events, this`cache, window, window.buf
      ensures window.Valid() && (window.buf == old(window.buf) || fresh(window.buf))
      ensures enough <==> !wanted || size <= |old(window.Rest())|
      ensures enough ==> window.Rest() == old(window.Rest())[Min(size, |old(window.Rest())|)..] && cache == NoCache
      ensures enough ==>
        events == old(events) + if wanted then Direct(f, a, Data(old(window.Rest()), size), old(window.bufLen)) else []
      ensures !enough ==> old(window.bufLen) <= |old(window.Rest())| && cache == old(cache)
      ensures !enough ==> events == old(events) + [FragmentCall(f, a, old(window.Rest())[..old(window.bufLen)], false, false)]
    {
      hide Window.Valid, Window.Rest, Direct;
      if wanted {
        enough := DirectRecord(f, a, size);
      } else {
        window.Skip(size);
        enough := true;
      }
      if enough {
        cache := NoCache;
      }
    }

    /** A record that is taken for an attribute of the open file at k. */
    method DataRecord(k: nat, f: u16, a: u16, size: nat, eoa: bool) returns (enough: bool)
      requires Terminated(handlings) && window.Valid() && k < |files| && size <= MAX_RECORD_DATA_SIZE
      modifies this`events, this`files, this`cache, window, window.buf
      ensures window.Valid() && (window.buf == old(window.buf) || fresh(window.buf))
      ensures enough ==> window.Rest() == old(window.Rest())[Min(size, |old(window.Rest())|)..]
      ensures enough ==>
        State() == WholeRecord(handlings, old(State()), k, f, a, eoa, Data(old(window.Rest()), size), old(window.bufLen))
      ensures HandlingAt(handlings, old(State()), k, a).callback ==> (enough <==> size <= |old(window.Rest())|)
      ensures !enough ==> old(window.bufLen) <= |old(window.Rest())| < size && HandlingAt(handlings, old(State()), k, a).callback
      ensures !enough ==>
        State() == CutRecord(handlings, old(State()), k, f, a, eoa, old(window.Rest())[..old(window.bufLen)])
    {
      hide Window.Valid, Window.Rest, HandlingOf, FindBuf, Direct, Recorded, HunkAt;
      ghost var m0 := State();
      var j := Lookup(k, a);
      if j == |files[k].attrs| {
        var h := FindHandling(a);
        if eoa && (!h.callback || window.bufLen >= size || window.bufLen >= h.minSize) {
          enough := SingleRecord(f, a, size, h.callback);
          return enough;
        }
        files := Replace(files, k, [AttrBuf(a, h, [], false)] + files[k].attrs);
        j := 0;
      }
      assert Stated(State(), Place(k, j)) == SetUp(handlings, m0, k, a);
      enough := StatedRecord(Place(k, j), f, size, eoa);
    }

    /** A record of an attribute that has a state. */
    method StatedRecord(p: Place, f: u16, size: nat, eoa: bool) returns (enough: bool)
      requires window.Valid() && At(State(), p) && size <= MAX_RECORD_DATA_SIZE
      modifies this`events, this`files, this`cache, window, window.buf
      ensures window.Valid() && (window.buf == old(window.buf) || fresh(window.buf))
      ensures enough ==> window.Rest() == old(window.Rest())[Min(size, |old(window.Rest())|)..]
      ensures enough ==>
        State() == Recorded(old(State()), p, f, eoa, Data(old(window.Rest()), size), old(window.bufLen))
      ensures old(AttrAt(State(), p)).handling.callback ==> (enough <==> size <= |old(window.Rest())|)
      ensures !enough ==> old(window.bufLen) <= |old(window.Rest())| < size && old(AttrAt(State(), p)).handling.callback
      ensures !enough ==> State() == HunkAt(old(State()), p, f, old(window.Rest())[..old(window.bufLen)], false)
    {
      hide Window.Valid, Window.Rest, HandlingOf, Hunks;
      ghost var m, data := State(), Data(window.Rest(), size);
      enough := true;
      if files[p.k].attrs[p.j].handling.callback {
        enough := RecordHunks(p, f, size, eoa);
        if !enough { return; }
        HunksSameLists(m, p, f, data, eoa, old(window.bufLen));
        HunksEnd(m, p, f, data, old(window.bufLen));
      } else {
        window.Skip(size);
      }
      if eoa {
        EndAttr(p, f);
      } else {
        cache := Cached(files[p.k].filenum, files[p.k].attrs[p.j].attrid);
      }
    }

    /** Finish an attribute whose last record was used: what was wanted of it has been passed on. */
    method EndAttr(p: Place, f: u16)
      requires At(State(), p) && (AttrAt(State(), p).handling.callback ==> AttrAt(State(), p).wroteEoa)
      modifies this`events, this`files, this`cache
      ensures State() == (if old(files)[p.k].filenum == f then DropAttr(old(State()), p) else old(State())).(cache := NoCache)
    {
      FinishAttr(f, files[p.k].attrs[p.j], false);
      if files[p.k].filenum == f {
        files := Replace(files, p.k, Without(files[p.k].attrs, p.j));
      }
      cache := NoCache;
    }

    // ---------- one turn of the loop ----------

    /** An archive header, wherever it is. */
    method ReadHeader() returns (r: Outcome)
      requires Valid() && RECORD_SIZE <= window.bufLen
      requires DecodeRecordHeader(window.Rest()).filenum == MAGIC_FILENUM
      modifies window, window.buf
      ensures Valid() && (window.buf == old(window.buf) || fresh(window.buf))
      ensures Follows(handlings, ignores, State(), old(window.Rest()), 0, State(), window.Rest(), r)
    {
      ghost var b0 := window.Rest();
      hide DecodeRecordHeader, HeaderVersion, Window.Rest, Window.Valid, Sound, AllFinished;
      var enough := window.AtLeast(HEADER_SIZE);
      if ParseOne(b0).Halt? { FollowsStop(handlings, ignores, State(), b0, 0); }
      if !enough {
        return Break;
      }
      DecodeFromPrefix(window.Available(), window.Rest());
      var version := HeaderVersion(window.Available());
      if version == None {
        return Failed(InvalidHeader);
      }
      if version.value > HEADER_VERSION {
        return Failed(UnsupportedVersion(version.value));
      }
      window.Skip(HEADER_SIZE);
      FollowsItem(handlings, ignores, State(), b0, 0);
      r := Continue;
    }

    /** Finish the file with that number, if it is open, and forget the remembered attribute. */
    method FinishKnown(f: u16, truncated: bool)
      modifies this`events, this`files, this`cache
      ensures State() == KnownFinished(old(State()), f, truncated)
    {
      hide FinishCalls;
      var i := LookupFile(f);
      if i < |files| {
        FinishFile(i, truncated);
        cache := NoCache;
      }
    }

    method EofRecord(f: u16)
      requires Valid() && RECORD_SIZE <= window.bufLen
      requires var h := DecodeRecordHeader(window.Rest());
        h.filenum == f != MAGIC_FILENUM && h.attrid == ATTR_EOF && h.size == 0
      modifies this`events, this`files, this`cache, window, window.buf
      ensures Valid() && (window.buf == old(window.buf) || fresh(window.buf))
      ensures Follows(handlings, ignores, old(State()), old(window.Rest()), 0, State(), window.Rest(), Continue)
    {
      assert RECORD_SIZE <= |window.Available()| <= |window.Rest()|;
      hide DecodeRecordHeader, Window.Rest, Window.Valid, Sound, FinishCalls;
      FollowsItem(handlings, ignores, State(), window.Rest(), 0);
      FinishSound(State(), f, false);
      window.Skip(RECORD_SIZE);
      FinishKnown(f, false);
    }

    method NameRecord(h: RecordHeader) returns (r: Outcome)
      requires Valid() && RECORD_SIZE <= window.bufLen
      requires h == DecodeRecordHeader(window.Rest()) && IsName(h)
      modifies this`events, this`files, this`cache, window, window.buf
      ensures Valid() && (window.buf == old(window.buf) || fresh(window.buf))
      ensures Follows(handlings, ignores, old(State()), old(window.Rest()), 0, State(), window.Rest(), r)
    {
      ghost var m0, b0 := State(), window.Rest();
      hide DecodeRecordHeader, Window.Rest, Window.Valid, Sound, KnownFinished, NameFollows, Follows;
      window.Skip(RECORD_SIZE);
      var enough := window.AtLeast(h.size);
      if !enough {
        r := Break;
      } else {
        FinishSound(State(), h.filenum, true);
        FinishKnown(h.filenum, true);
        r := StartNamed(h);
      }
      FollowsName(handlings, ignores, m0, b0, 0, State(), window.Rest(), r);
    }

    /** With the previous file of that number closed, start the new one. */
    method StartNamed(h: RecordHeader) returns (r: Outcome)
      requires Valid() && (cache.Cached? ==> FindOpen(files, h.filenum) == |files|) && h.size <= window.bufLen
      modifies this`events, this`files, window, window.buf
      ensures Valid() && (window.buf == old(window.buf) || fresh(window.buf))
      ensures NameFollows(h, ignores, old(State()), old(window.Rest()), State(), window.Rest(), r)
    {
      hide Window.Rest, Window.Valid, Sound;
      if h.size == 0 {
        r := Nameless(h.filenum);
      } else if !h.eoa {
        r := Failed(NameWithoutEoa(h.filenum));
      } else {
        var name := window.Available()[..h.size];
        assert name == window.Rest()[..h.size];
        StartSound(ignores, State(), h.filenum, name);
        files := [OpenFile(h.filenum, ignores(h.filenum, name), [])] + files;
        events := events + [StartCall(h.filenum, name)];
        window.Skip(h.size);
        r := Continue;
      }
    }

    /** A filename of no bytes: padding, or an error. */
    method Nameless(f: u16) returns (r: Outcome)
      requires window.Valid()
      modifies window, window.buf
      ensures window.Valid() && (window.buf == old(window.buf) || fresh(window.buf))
      ensures var rest := old(window.Rest());
        r == if |rest| < 504 || forall i | 0 <= i < 504 :: rest[i] == 0 then Break else Failed(EmptyName(f))
    {
      ghost var rest := window.Rest();
      var enough := window.AtLeast(PADDING_SIZE);
      if !enough {
        return Break;
      }
      var bytes := window.Available();
      var padding := true;
      for i := 0 to PADDING_SIZE
        invariant padding <==> forall k | 0 <= k < i :: bytes[k] == 0
      {
        if bytes[i] != 0 {
          padding := false;
        }
      }
      assert forall k | 0 <= k < PADDING_SIZE :: bytes[k] == rest[k];
      r := if padding then Break else Failed(EmptyName(f));
    }

    /** A record of a file that is open and not ignored: it is taken for the remembered attribute if
        the number agrees, whichever file that belongs to. */
    method AcceptedRecord(f: u16, a: u16, size: nat, eoa: bool) returns (enough: bool, owner: u16)
      requires Valid() && Accepts(State(), f) && a >= ATTR_APP_START && size <= MAX_RECORD_DATA_SIZE
      modifies this`events, this`files, this`cache, window, window.buf
      ensures window.Valid() && (window.buf == old(window.buf) || fresh(window.buf))
      ensures owner == Owner(old(State()), f, a)
      ensures enough ==> Sound(State()) && window.Rest() == old(window.Rest())[Min(size, |old(window.Rest())|)..]
      ensures enough ==>
        State() == AmarMachine.AppRecord(handlings, old(State()), f, a, eoa, Data(old(window.Rest()), size), old(window.bufLen))
      ensures Wanted(handlings, old(State()), f, a) ==> (enough <==> size <= |old(window.Rest())|)
      ensures !enough ==> old(window.bufLen) <= |old(window.Rest())| < size && Wanted(handlings, old(State()), f, a)
      ensures !enough ==>
        State() == CutRecord(handlings, old(State()), FindOpen(old(files), owner), f, a, eoa, old(window.Rest())[..old(window.bufLen)])
    {
      hide Window.Rest, Window.Valid, WholeRecord, CutRecord, HandlingOf, HandlingAt, FindBuf, FindOpen, Sound;
      ghost var m0, rest, n := State(), window.Rest(), window.bufLen;
      OwnerIsOpen(m0, f, a);
      var remembered := cache.Cached? && cache.attrid == a;
      owner := if remembered then cache.owner else f;
      var k := LookupFile(owner);
      enough := DataRecord(k, f, a, size, eoa);
      if enough {
        WholeRecordSound(handlings, m0, k, f, a, eoa, Data(rest, size), n);
      }
    }

    /** A record of an application attribute, of any file. */
    method AppRecord(h: RecordHeader) returns (r: Outcome, ghost n: nat)
      requires Valid() && RECORD_SIZE <= window.bufLen
      requires h == DecodeRecordHeader(window.Rest()) && IsApp(h)
      modifies this`events, this`files, this`cache, window, window.buf
      ensures window.Valid() && (r == Continue ==> Valid()) && (window.buf == old(window.buf) || fresh(window.buf))
      ensures Follows(handlings, ignores, old(State()), old(window.Rest()), n, State(), window.Rest(), r)
    {
      ghost var m0, b0 := State(), window.Rest();
      var i := LookupFile(h.filenum);
      hide DecodeRecordHeader, Window.Rest, Window.Valid, Follows, WholeRecord, CutRecord, HandlingAt, Sound;
      window.Skip(RECORD_SIZE);
      n := window.bufLen;
      if i == |files| || files[i].ignore {
        window.Skip(h.size);
        FollowsApp(handlings, ignores, m0, b0, n, State(), window.Rest());
        return Continue, n;
      }
      var enough, owner := AcceptedRecord(h.filenum, h.attrid, h.size, h.eoa);
      if !enough {
        FollowsCut(handlings, ignores, m0, b0, n, State(), window.Rest());
        return Break, n;
      }
      FollowsApp(handlings, ignores, m0, b0, n, State(), window.Rest());
      r := if h.eoa && owner != h.filenum then Freed(h.filenum, owner, h.attrid) else Continue;
    }

    /** The end of a file, or a record that cannot be. */
    method OtherRecord(h: RecordHeader) returns (r: Outcome)
      requires Valid() && RECORD_SIZE <= window.bufLen && h == DecodeRecordHeader(window.Rest())
      requires h.filenum != MAGIC_FILENUM
      requires h.size > MAX_RECORD_DATA_SIZE || (h.attrid != ATTR_FILENAME && h.attrid < ATTR_APP_START)
      modifies this`events, this`files, this`cache, window, window.buf
      ensures Valid() && (window.buf == old(window.buf) || fresh(window.buf))
      ensures Follows(handlings, ignores, old(State()), old(window.Rest()), 0, State(), window.Rest(), r)
    {
      if h.size == 0 && h.attrid == ATTR_EOF {
        EofRecord(h.filenum);
        return Continue;
      }
      hide DecodeRecordHeader, Window.Rest, Window.Valid, Sound, AllFinished;
      FollowsStop(handlings, ignores, State(), window.Rest(), 0);
      window.Skip(RECORD_SIZE);
      r := Failed(
        if h.size > MAX_RECORD_DATA_SIZE then RecordTooLarge
        else if h.attrid == ATTR_EOF then EofWithData
        else UnknownAttribute(h.filenum, h.attrid));
    }

    /** One record or header. */
    method ReadOne() returns (r: Outcome, ghost n: nat)
      requires Valid()
      modifies this`events, this`files, this`cache, window, window.buf
      ensures window.Valid() && (r == Continue ==> Valid()) && (window.buf == old(window.buf) || fresh(window.buf))
      ensures Follows(handlings, ignores, old(State()), old(window.Rest()), n, State(), window.Rest(), r)
    {
      hide DecodeRecordHeader, Window.Rest, Window.Valid, Sound, Follows, State;
      n := 0;
      var enough := window.AtLeast(RECORD_SIZE);
      if !enough {
        NoMore();
        return Break, n;
      }
      DecodeFromPrefix(window.Available(), window.Rest());
      var h := DecodeRecordHeader(window.Available());
      if h.filenum == MAGIC_FILENUM {
        r := ReadHeader();
      } else if IsApp(h) {
        r, n := AppRecord(h);
      } else if IsName(h) {
        r := NameRecord(h);
      } else {
        r := OtherRecord(h);
      }
    }

    lemma NoMore()
      requires Terminated(handlings) && |window.Rest()| < RECORD_SIZE
      ensures Follows(handlings, ignores, State(), window.Rest(), 0, State(), window.Rest(), Break)
    {
      FollowsStop(handlings, ignores, State(), window.Rest(), 0);
    }

    /** Close all open files, assuming that they have been truncated. */
    method FinishAll()
      modifies this`events, this`files
      ensures State() == AllFinished(old(State()))
    {
      ghost var m := AllFinished(State());
      hide FinishCalls;
      while files != []
        invariant AllFinished(State()) == m
        decreases |files|
      {
        FinishFile(0, true);
      }
    }

    /** amar_read */
    method Read() returns (result: Result, ghost cuts: Cuts)
      requires Valid() && State() == IDLE
      modifies this, window, window.buf
      ensures Delivered(events, result) == ReadBytes(handlings, ignores, old(window.Rest()), cuts)
    {
      ghost var b := window.Rest();
      hide DecodeRecordHeader, Window.Rest, Window.Valid, Sound, Follows, ReadItems, Parse;
      var enough := window.AtLeast(RECORD_SIZE);
      if enough {
        DecodeFromPrefix(window.Available(), window.Rest());
        if DecodeRecordHeader(window.Available()).filenum != MAGIC_FILENUM {
          return NotAnArchive, [];
        }
      }
      result, cuts := Loop();
    }

    method Loop() returns (result: Result, ghost cuts: Cuts)
      requires Valid()
      modifies this`events, this`files, this`cache, window, window.buf
      ensures Delivered(events, result) == ReadItems(handlings, ignores, old(State()), Parse(old(window.Rest())), cuts)
    {
      ghost var m0, b0 := State(), window.Rest();
      hide Window.Rest, Window.Valid, Sound, Follows, ReadItems, Parse, State, AllFinished;
      ghost var n;
      cuts := [];
      assert RunOn(m0, b0, cuts, State(), window.Rest()) by { NothingRead(m0, b0); }
      var r := Continue;
      while r == Continue
        invariant window.Valid() && (r == Continue ==> Valid()) && (window.buf == old(window.buf) || fresh(window.buf))
        invariant r == Continue ==> RunOn(m0, b0, cuts, State(), window.Rest())
        invariant r != Continue ==> Over(m0, b0, cuts, State(), r)
        decreases r == Continue, |window.Rest()|
      {
        ghost var m, b := State(), window.Rest();
        r, n := ReadOne();
        OneMore(m0, b0, cuts, m, b, n, State(), window.Rest(), r);
        cuts := cuts + [n];
      }
      ghost var m := State();
      match r {
        case Break =>
          FinishAll();
          result := Success;
        case Failed(stop) => result := Error(stop);
        case Freed(f, owner, a) => result := Dangling(f, owner, a);
      }
    }

    /** Reading from m0 and b0 on is reading from m and b on, after records cut like that. */
    ghost predicate RunOn(m0: Machine, b0: seq<byte>, cuts: Cuts, m: Machine, b: seq<byte>)
      requires Terminated(handlings)
    {
      forall more ::
        ReadItems(handlings, ignores, m0, Parse(b0), cuts + more) == ReadItems(handlings, ignores, m, Parse(b), more)
    }

    /** ... and has come to its end. */
    ghost predicate Over(m0: Machine, b0: seq<byte>, cuts: Cuts, m: Machine, r: Outcome)
      requires Terminated(handlings)
    {
      ReadItems(handlings, ignores, m0, Parse(b0), cuts) ==
        match r
        case Break => Delivered(AllFinished(m).events, Success)
        case Failed(stop) => Delivered(m.events, Error(stop))
        case Freed(f, owner, a) => Delivered(m.events, Dangling(f, owner, a))
        case Continue => Delivered(m.events, NotAnArchive)
    }

    lemma NothingRead(m0: Machine, b0: seq<byte>)
      requires Terminated(handlings)
      ensures RunOn(m0, b0, [], m0, b0)
    {
      hide ReadItems, Parse;
      assert forall more: Cuts :: [] + more == more;
    }

    lemma OneMore(m0: Machine, b0: seq<byte>, cuts: Cuts, m: Machine, b: seq<byte>, n: nat, m': Machine, b': seq<byte>, r: Outcome)
      requires Terminated(handlings)
      requires RunOn(m0, b0, cuts, m, b) && Follows(handlings, ignores, m, b, n, m', b', r)
      ensures r == Continue ==> RunOn(m0, b0, cuts + [n], m', b') && |b'| < |b|
      ensures r != Continue ==> Over(m0, b0, cuts + [n], m', r)
    {
      hide ReadItems, Parse, AllFinished;
      if r == Continue {
        forall more
          ensures ReadItems(handlings, ignores, m0, Parse(b0), (cuts + [n]) + more) == ReadItems(handlings, ignores, m', Parse(b'), more)
        {
          assert (cuts + [n]) + more == cuts + ([n] + more);
        }
      } else {
        assert [n] + [] == [n];
      }
    }
  }
}

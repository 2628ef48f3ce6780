/** Reading an archive from the offset of one of its headers. */
module AmarOffset {
  import opened AmarFormat
  import opened Text
  import opened AmarSemantics
  import opened AmarMachine
  import opened AmarDelivery
  import opened AmarRefinement
  import opened AmarReading
  import opened AmarTruncation
  import opened AmarConfusion
  import opened AmarMisreading
  import W = AmarWriter
  import opened AmarRoundTrip
  import opened AmarArchive

  /** Something reported, with the index of the filename record of the file that it is about. */
  datatype Told = Told(obs: Obs, born: nat)

  /** The index of the last filename record of each file number. */
  type Births = map<u16, nat>

  function BornAt(born: Births, f: u16): nat {
    if f in born then born[f] else 0
  }

  function Tag(obs: seq<Obs>, born: Births): seq<Told> {
    if obs == [] then [] else [Told(obs[0], BornAt(born, obs[0].filenum))] + Tag(obs[1..], born)
  }

  function NextBirths(born: Births, item: Item, i: nat): Births {
    if item.Rec? && item.attrid == ATTR_FILENAME then born[item.filenum := i] else born
  }

  /** What item number i makes the reader report: the previous file of the number is closed first. */
  function TellItem(c: Caller, st: ReaderState, born: Births, item: Item, i: nat): seq<Told> {
    if item.Rec? && item.attrid == ATTR_FILENAME
    then Tag(ClosingOf(c, st, item.filenum, true), born) + [Told(Started(item.filenum, item.data), i)]
    else Tag(Emitted(c, st, item), born)
  }

  /** Everything reported from item number i on. */
  function Tell(c: Caller, st: ReaderState, born: Births, items: seq<Item>, i: nat): seq<Told>
    decreases |items|
  {
    if items == [] then Tag(CloseAll(c, st.files), born)
    else TellItem(c, st, born, items[0], i) + Tell(c, Step(c, st, items[0]), NextBirths(born, items[0], i), items[1..], i + 1)
  }

  /** The reports of files whose filename record is item number k or later. */
  function AtOrAfter(told: seq<Told>, k: nat): seq<Obs> {
    if told == [] then []
    else (if told[0].born >= k then [told[0].obs] else []) + AtOrAfter(told[1..], k)
  }

  lemma AtOrAfterFirst(t: Told, rest: seq<Told>, k: nat)
    ensures AtOrAfter([t] + rest, k) == (if t.born >= k then [t.obs] else []) + AtOrAfter(rest, k)
  {
    assert ([t] + rest)[1..] == rest;
  }

  lemma {:induction false} AtOrAfterAppend(x: seq<Told>, y: seq<Told>, k: nat)
    ensures AtOrAfter(x + y, k) == AtOrAfter(x, k) + AtOrAfter(y, k)
  {
    hide AtOrAfter;
    if x == [] {
      assert AtOrAfter([], k) == [] by { AtOrAfterNone(k); }
      assert x + y == y;
    } else {
      var t, rest := x[0], x[1..];
      assert x == [t] + rest;
      JoinThree([t], rest, y);
      AtOrAfterFirst(t, rest + y, k);
      AtOrAfterFirst(t, rest, k);
      AtOrAfterAppend(rest, y, k);
      JoinThree(if t.born >= k then [t.obs] else [], AtOrAfter(rest, k), AtOrAfter(y, k));
    }
  }

  lemma AtOrAfterNone(k: nat)
    ensures AtOrAfter([], k) == []
  {}

  lemma {:induction false} TagAppend(x: seq<Obs>, y: seq<Obs>, born: Births)
    ensures Tag(x + y, born) == Tag(x, born) + Tag(y, born)
  {
    if x == [] {
      assert x + y == y;
    } else {
      assert (x + y)[1..] == x[1..] + y;
      TagAppend(x[1..], y, born);
    }
  }

  lemma {:induction false} TagAll(obs: seq<Obs>, born: Births)
    ensures AtOrAfter(Tag(obs, born), 0) == obs
  {
    if obs != [] {
      TagAll(obs[1..], born);
    }
  }

  /** Tagging leaves nothing out: all that is told is all that is read. */
  lemma {:induction false} TellIsLater(c: Caller, st: ReaderState, born: Births, items: seq<Item>, i: nat)
    ensures AtOrAfter(Tell(c, st, born, items, i), 0) == Later(c, st, items)
    decreases |items|
  {
    hide AtOrAfter, Tag, Step, NextBirths, ClosingOf, CloseAll;
    if items == [] {
      TagAll(CloseAll(c, st.files), born);
    } else {
      var item := items[0];
      AtOrAfterAppend(TellItem(c, st, born, item, i),
                      Tell(c, Step(c, st, item), NextBirths(born, item, i), items[1..], i + 1), 0);
      TellIsLater(c, Step(c, st, item), NextBirths(born, item, i), items[1..], i + 1);
      if item.Rec? && item.attrid == ATTR_FILENAME {
        AtOrAfterAppend(Tag(ClosingOf(c, st, item.filenum, true), born), [Told(Started(item.filenum, item.data), i)], 0);
        TagAll(ClosingOf(c, st, item.filenum, true), born);
        AtOrAfterFirst(Told(Started(item.filenum, item.data), i), [], 0);
        AtOrAfterNone(0);
        assert [Started(item.filenum, item.data)] + [] == [Started(item.filenum, item.data)];
        assert [Told(Started(item.filenum, item.data), i)] + [] == [Told(Started(item.filenum, item.data), i)];
      } else {
        TagAll(Emitted(c, st, item), born);
      }
    }
  }

  // ---------- before the offset ----------

  predicate BornBefore(born: Births, k: nat) {
    forall f | f in born :: born[f] < k
  }

  lemma {:induction false} TagOld(obs: seq<Obs>, born: Births, k: nat)
    requires k > 0 && BornBefore(born, k)
    ensures AtOrAfter(Tag(obs, born), k) == []
  {
    if obs != [] {
      TagOld(obs[1..], born, k);
    }
  }

  function BirthsAfter(born: Births, items: seq<Item>, i: nat): Births
    decreases |items|
  {
    if items == [] then born else BirthsAfter(NextBirths(born, items[0], i), items[1..], i + 1)
  }

  /** Nothing told before the offset is about a file that starts after it. */
  lemma {:induction false} TellBefore(c: Caller, st: ReaderState, born: Births, xs: seq<Item>, ys: seq<Item>, i: nat, k: nat)
    requires i + |xs| == k && k > 0 && BornBefore(born, k)
    ensures AtOrAfter(Tell(c, st, born, xs + ys, i), k) == AtOrAfter(Tell(c, Fold(c, st, xs), BirthsAfter(born, xs, i), ys, k), k)
    ensures BornBefore(BirthsAfter(born, xs, i), k)
    decreases |xs|
  {
    hide AtOrAfter, TellItem, Step, NextBirths;
    if xs == [] {
      assert xs + ys == ys;
    } else {
      var item := xs[0];
      NextBirthsBefore(born, item, i, k);
      assert (xs + ys)[0] == item && (xs + ys)[1..] == xs[1..] + ys;
      TellBefore(c, Step(c, st, item), NextBirths(born, item, i), xs[1..], ys, i + 1, k);
      TellItemOld(c, st, born, item, i, k);
      AtOrAfterAppend(TellItem(c, st, born, item, i),
                      Tell(c, Step(c, st, item), NextBirths(born, item, i), xs[1..] + ys, i + 1), k);
    }
  }

  lemma NextBirthsBefore(born: Births, item: Item, i: nat, k: nat)
    requires BornBefore(born, k) && i < k
    ensures BornBefore(NextBirths(born, item, i), k)
  {}

  lemma TellItemOld(c: Caller, st: ReaderState, born: Births, item: Item, i: nat, k: nat)
    requires i < k && BornBefore(born, k)
    ensures AtOrAfter(TellItem(c, st, born, item, i), k) == []
  {
    if item.Rec? && item.attrid == ATTR_FILENAME {
      TagOld(ClosingOf(c, st, item.filenum, true), born, k);
      AtOrAfterAppend(Tag(ClosingOf(c, st, item.filenum, true), born), [Told(Started(item.filenum, item.data), i)], k);
    } else {
      TagOld(Emitted(c, st, item), born, k);
    }
  }

  // ---------- after the offset: the same files, without the older ones ----------

  function Young(files: seq<FileState>, born: Births, k: nat): seq<FileState> {
    if files == [] then []
    else (if BornAt(born, files[0].filenum) >= k then [files[0]] else []) + Young(files[1..], born, k)
  }

  /** s is the state of a reader that started at item k. */
  predicate Restricts(st: ReaderState, born: Births, s: ReaderState, k: nat) {
    DistinctFiles(st.files) && s.files == Young(st.files, born, k)
  }

  lemma YoungFirst(x: FileState, rest: seq<FileState>, born: Births, k: nat)
    ensures Young([x] + rest, born, k) == (if BornAt(born, x.filenum) >= k then [x] else []) + Young(rest, born, k)
  {
    assert ([x] + rest)[1..] == rest;
  }

  lemma FindFirst(x: FileState, rest: seq<FileState>, f: u16)
    ensures FindFile([x] + rest, f) == if x.filenum == f then 0 else 1 + FindFile(rest, f)
  {
    assert ([x] + rest)[1..] == rest;
  }

  lemma {:induction false} YoungFind(files: seq<FileState>, born: Births, k: nat, f: u16)
    ensures var i, j := FindFile(files, f), FindFile(Young(files, born, k), f);
      && (j < |Young(files, born, k)| <==> i < |files| && BornAt(born, f) >= k)
      && (j < |Young(files, born, k)| ==> Young(files, born, k)[j] == files[i])
  {
    hide Young, FindFile;
    if files == [] {
      YoungNone(born, k);
    } else {
      var x, rest := files[0], files[1..];
      var y := Young(rest, born, k);
      assert files == [x] + rest;
      YoungFirst(x, rest, born, k);
      YoungFind(rest, born, k, f);
      FindFirst(x, rest, f);
      if BornAt(born, x.filenum) >= k {
        FindFirst(x, y, f);
      } else {
        assert Young(files, born, k) == y;
      }
    }
  }

  lemma YoungNone(born: Births, k: nat)
    ensures Young([], born, k) == []
  {}

  /** Removing a file, first one first. */
  lemma WithoutFile(x: FileState, rest: seq<FileState>, f: u16)
    ensures var all := [x] + rest;
      Without(all, FindFile(all, f)) == if x.filenum == f then rest else [x] + Without(rest, FindFile(rest, f))
  {
    assert ([x] + rest)[1..] == rest;
  }

  lemma {:induction false} YoungWithout(files: seq<FileState>, born: Births, k: nat, f: u16)
    ensures Young(Without(files, FindFile(files, f)), born, k) ==
      var y := Young(files, born, k); if BornAt(born, f) >= k then Without(y, FindFile(y, f)) else y
  {
    if files != [] {
      hide Young, Without, FindFile;
      var x, rest := files[0], files[1..];
      assert files == [x] + rest;
      YoungFirst(x, rest, born, k);
      WithoutFile(x, rest, f);
      if x.filenum == f {
        WithoutFile(x, Young(rest, born, k), f);
        assert [] + Young(rest, born, k) == Young(rest, born, k);
      } else {
        YoungFirst(x, Without(rest, FindFile(rest, f)), born, k);
        YoungWithout(rest, born, k, f);
        WithoutFile(x, Young(rest, born, k), f);
        assert [] + Young(rest, born, k) == Young(rest, born, k);
      }
    }
  }

  lemma {:induction false} YoungSetGone(files: seq<FileState>, born: Births, k: nat, f: u16, attrs: seq<AttrState>)
    requires FindFile(files, f) < |files| && BornAt(born, f) < k
    ensures Young(SetAttrs(files, FindFile(files, f), attrs), born, k) == Young(files, born, k)
  {
    hide Young, FindFile;
    var x, rest := files[0], files[1..];
    assert files == [x] + rest;
    FindFirst(x, rest, f);
    YoungFirst(x, rest, born, k);
    if x.filenum == f {
      assert SetAttrs(files, 0, attrs) == [x.(attrs := attrs)] + rest;
      YoungFirst(x.(attrs := attrs), rest, born, k);
    } else {
      YoungSetGone(rest, born, k, f, attrs);
      assert SetAttrs(files, FindFile(files, f), attrs) == [x] + SetAttrs(rest, FindFile(rest, f), attrs);
      YoungFirst(x, SetAttrs(rest, FindFile(rest, f), attrs), born, k);
    }
  }

  lemma {:induction false} YoungSet(files: seq<FileState>, born: Births, k: nat, f: u16, attrs: seq<AttrState>)
    requires FindFile(files, f) < |files| && BornAt(born, f) >= k
    ensures FindFile(Young(files, born, k), f) < |Young(files, born, k)|
    ensures Young(SetAttrs(files, FindFile(files, f), attrs), born, k)
         == SetAttrs(Young(files, born, k), FindFile(Young(files, born, k), f), attrs)
  {
    hide Young, FindFile;
    YoungFind(files, born, k, f);
    var x, rest := files[0], files[1..];
    var y := Young(rest, born, k);
    assert files == [x] + rest;
    FindFirst(x, rest, f);
    YoungFirst(x, rest, born, k);
    if x.filenum == f {
      FindFirst(x, y, f);
      assert SetAttrs(files, 0, attrs) == [x.(attrs := attrs)] + rest;
      YoungFirst(x.(attrs := attrs), rest, born, k);
      assert SetAttrs([x] + y, 0, attrs) == [x.(attrs := attrs)] + y;
    } else {
      YoungSet(rest, born, k, f, attrs);
      assert SetAttrs(files, FindFile(files, f), attrs) == [x] + SetAttrs(rest, FindFile(rest, f), attrs);
      YoungFirst(x, SetAttrs(rest, FindFile(rest, f), attrs), born, k);
      YoungSetLater(x, y, f, attrs);
      assert forall z: seq<FileState> :: [] + z == z;
    }
  }

  lemma YoungSetLater(x: FileState, y: seq<FileState>, f: u16, attrs: seq<AttrState>)
    requires x.filenum != f && FindFile(y, f) < |y|
    ensures FindFile([x] + y, f) == 1 + FindFile(y, f)
    ensures SetAttrs([x] + y, FindFile([x] + y, f), attrs) == [x] + SetAttrs(y, FindFile(y, f), attrs)
  {
    FindFirst(x, y, f);
  }

  predicate AllOf(obs: seq<Obs>, f: u16) {
    forall i | 0 <= i < |obs| :: obs[i].filenum == f
  }

  lemma {:induction false} TagOfFile(obs: seq<Obs>, born: Births, k: nat, f: u16)
    requires AllOf(obs, f)
    ensures AtOrAfter(Tag(obs, born), k) == if BornAt(born, f) >= k then obs else []
  {
    if obs != [] {
      TagOfFile(obs[1..], born, k, f);
      AtOrAfterFirst(Told(obs[0], BornAt(born, obs[0].filenum)), Tag(obs[1..], born), k);
    }
  }

  lemma {:induction false} CloseAttrsOf(c: Caller, f: u16, attrs: seq<AttrState>)
    ensures AllOf(CloseAttrs(c, f, attrs), f)
  {
    if attrs != [] {
      CloseAttrsOf(c, f, attrs[1..]);
    }
  }

  lemma CloseFileOf(c: Caller, file: FileState, truncated: bool)
    ensures AllOf(CloseFile(c, file, truncated), file.filenum)
  {
    CloseAttrsOf(c, file.filenum, file.attrs);
  }

  lemma {:induction false} CloseAllYoung(c: Caller, files: seq<FileState>, born: Births, k: nat)
    ensures AtOrAfter(Tag(CloseAll(c, files), born), k) == CloseAll(c, Young(files, born, k))
  {
    if files != [] {
      var x, rest := files[0], files[1..];
      CloseAllYoung(c, rest, born, k);
      TagAppend(CloseFile(c, x, true), CloseAll(c, rest), born);
      AtOrAfterAppend(Tag(CloseFile(c, x, true), born), Tag(CloseAll(c, rest), born), k);
      CloseFileOf(c, x, true);
      TagOfFile(CloseFile(c, x, true), born, k, x.filenum);
      hide CloseFile, AtOrAfter, Tag;
      if BornAt(born, x.filenum) >= k {
        assert ([x] + Young(rest, born, k))[1..] == Young(rest, born, k);
      } else {
        assert forall obs: seq<Obs> :: [] + obs == obs;
        assert [] + Young(rest, born, k) == Young(rest, born, k);
      }
    }
  }

  lemma CloseRestricts(c: Caller, st: ReaderState, born: Births, s: ReaderState, f: u16, truncated: bool, k: nat)
    requires Restricts(st, born, s, k)
    ensures Restricts(CloseFound(c, st, f, truncated), born, CloseFound(c, s, f, truncated), k)
    ensures AtOrAfter(Tag(ClosingOf(c, st, f, truncated), born), k) == ClosingOf(c, s, f, truncated)
  {
    FileAfterClose(c, st, f, truncated, f);
    YoungFind(st.files, born, k, f);
    YoungWithout(st.files, born, k, f);
    if Known(st, f) {
      var file := st.files[FindFile(st.files, f)];
      CloseFileOf(c, file, truncated);
      TagOfFile(CloseFile(c, file, truncated), born, k, f);
    }
  }

  lemma {:induction false} YoungSame(files: seq<FileState>, born: Births, k: nat, f: u16, i: nat)
    requires FindFile(files, f) == |files|
    ensures Young(files, born[f := i], k) == Young(files, born, k)
  {
    if files != [] {
      YoungSame(files[1..], born, k, f, i);
    }
  }

  lemma StartRestricts(c: Caller, st: ReaderState, born: Births, s: ReaderState, f: u16, name: seq<byte>, i: nat, k: nat)
    requires Restricts(st, born, s, k) && !Known(st, f) && i >= k
    ensures Restricts(Start(c, st, f, name), born[f := i], Start(c, s, f, name), k)
  {
    FileAfterStart(c, st, f, name, f);
    YoungSame(st.files, born, k, f, i);
    YoungFirst(FileState(f, c.ignores(f, name), []), st.files, born[f := i], k);
  }

  lemma DataRestricts(c: Caller, st: ReaderState, born: Births, s: ReaderState, f: u16, a: u16, eoa: bool, data: seq<byte>, k: nat)
    requires Restricts(st, born, s, k)
    ensures Restricts(AddData(c, st, f, a, eoa, data), born, AddData(c, s, f, a, eoa, data), k)
  {
    hide Without, Grow, Young, FindFile;
    FileAfterData(c, st, f, a, eoa, data, f);
    YoungFind(st.files, born, k, f);
    if Receives(st, f) {
      var attrs := st.files[FindFile(st.files, f)].attrs;
      var attrs' := if eoa then Without(attrs, FindAttr(attrs, a)) else Grow(c, attrs, a, data);
      if BornAt(born, f) >= k {
        YoungSet(st.files, born, k, f, attrs');
      } else {
        YoungSetGone(st.files, born, k, f, attrs');
      }
    }
  }

  lemma DataTold(c: Caller, st: ReaderState, born: Births, s: ReaderState, item: Item, k: nat)
    requires Restricts(st, born, s, k)
    requires item.Rec? && item.attrid != ATTR_EOF && item.attrid != ATTR_FILENAME
    ensures AtOrAfter(Tag(Emitted(c, st, item), born), k) == Emitted(c, s, item)
  {
    YoungFind(st.files, born, k, item.filenum);
    TagOfFile(Emitted(c, st, item), born, k, item.filenum);
  }

  /** One more item keeps the two readers together. */
  lemma StepRestricts(c: Caller, st: ReaderState, born: Births, s: ReaderState, item: Item, i: nat, k: nat)
    requires Restricts(st, born, s, k) && i >= k
    ensures Restricts(Step(c, st, item), NextBirths(born, item, i), Step(c, s, item), k)
    ensures AtOrAfter(TellItem(c, st, born, item, i), k) == Emitted(c, s, item)
  {
    hide Restricts, AddData, Young, CloseFound, Start, ClosingOf, AtOrAfter;
    match item
    case Header =>
      AtOrAfterNone(k);
      assert Tag([], born) == [];
    case Rec(f, a, eoa, data) =>
      if a == ATTR_EOF {
        CloseRestricts(c, st, born, s, f, false, k);
      } else if a == ATTR_FILENAME {
        CloseRestricts(c, st, born, s, f, true, k);
        NotKnownAfter(c, st, born, s, f, k);
        StartRestricts(c, CloseFound(c, st, f, true), born, CloseFound(c, s, f, true), f, data, i, k);
        var closing := Tag(ClosingOf(c, st, f, true), born);
        AtOrAfterAppend(closing, [Told(Started(f, data), i)], k);
        AtOrAfterFirst(Told(Started(f, data), i), [], k);
        AtOrAfterNone(k);
        assert [Told(Started(f, data), i)] + [] == [Told(Started(f, data), i)];
        assert [Started(f, data)] + [] == [Started(f, data)];
      } else {
        DataRestricts(c, st, born, s, f, a, eoa, data, k);
        DataTold(c, st, born, s, item, k);
      }
  }

  lemma NotKnownAfter(c: Caller, st: ReaderState, born: Births, s: ReaderState, f: u16, k: nat)
    requires Restricts(st, born, s, k)
    ensures !Known(CloseFound(c, st, f, true), f)
  {
    FileAfterClose(c, st, f, true, f);
  }

  lemma {:induction false} TellAfter(c: Caller, st: ReaderState, born: Births, s: ReaderState, items: seq<Item>, i: nat, k: nat)
    requires Restricts(st, born, s, k) && i >= k
    ensures AtOrAfter(Tell(c, st, born, items, i), k) == Later(c, s, items)
    decreases |items|
  {
    if items == [] {
      CloseAllYoung(c, st.files, born, k);
    } else {
      hide AtOrAfter, TellItem, Step, Restricts, Emitted, NextBirths;
      var item := items[0];
      StepRestricts(c, st, born, s, item, i, k);
      TellAfter(c, Step(c, st, item), NextBirths(born, item, i), Step(c, s, item), items[1..], i + 1, k);
      AtOrAfterAppend(TellItem(c, st, born, item, i),
                      Tell(c, Step(c, st, item), NextBirths(born, item, i), items[1..], i + 1), k);
    }
  }

  // ---------- no confusion from the offset on ----------

  lemma {:induction false} YoungIn(files: seq<FileState>, born: Births, k: nat, j: nat)
    requires j < |Young(files, born, k)|
    ensures exists i | 0 <= i < |files| :: files[i] == Young(files, born, k)[j]
  {
    var first := if BornAt(born, files[0].filenum) >= k then [files[0]] else [];
    if j < |first| {
      assert files[0] == Young(files, born, k)[j];
    } else {
      YoungIn(files[1..], born, k, j - |first|);
      var i :| 0 <= i < |files[1..]| && files[1..][i] == Young(files[1..], born, k)[j - |first|];
      assert files[i + 1] == Young(files, born, k)[j];
    }
  }

  lemma OverlapsIn(st: ReaderState, born: Births, s: ReaderState, k: nat, f: u16, a: u16)
    requires Restricts(st, born, s, k) && Overlaps(s, f, a)
    ensures Overlaps(st, f, a)
  {
    var j :| 0 <= j < |s.files| && s.files[j].filenum != f && HasAttr(s.files[j], a);
    YoungIn(st.files, born, k, j);
  }

  lemma {:induction false} NoOverlapAfter(c: Caller, st: ReaderState, born: Births, s: ReaderState, items: seq<Item>, i: nat, k: nat)
    requires Restricts(st, born, s, k) && i >= k
    requires NeverOverlaps(c, st, items)
    ensures NeverOverlaps(c, s, items)
    decreases |items|
  {
    hide Restricts, Step, NextBirths, Overlaps;
    if items != [] {
      var item := items[0];
      if item.Rec? && Overlaps(s, item.filenum, item.attrid) {
        OverlapsIn(st, born, s, k, item.filenum, item.attrid);
      }
      StepRestricts(c, st, born, s, item, i, k);
      NoOverlapAfter(c, Step(c, st, item), NextBirths(born, item, i), Step(c, s, item), items[1..], i + 1, k);
    }
  }

  lemma {:induction false} NeverOverlapsSplit(c: Caller, st: ReaderState, xs: seq<Item>, ys: seq<Item>)
    requires NeverOverlaps(c, st, xs + ys)
    ensures NeverOverlaps(c, Fold(c, st, xs), ys)
    decreases |xs|
  {
    hide Step, Overlaps;
    if xs == [] {
      assert xs + ys == ys;
    } else {
      assert (xs + ys)[1..] == xs[1..] + ys;
      NeverOverlapsSplit(c, Step(c, st, xs[0]), xs[1..], ys);
    }
  }

  // ---------- the theorem ----------

  lemma {:induction false} AllOld(files: seq<FileState>, born: Births, k: nat)
    requires BornBefore(born, k) && k > 0
    ensures Young(files, born, k) == []
  {
    if files != [] {
      AllOld(files[1..], born, k);
    }
  }

  /** The state of the full read at item k, and of a reader that starts there. */
  lemma StartRestricted(c: Caller, items: seq<Item>, k: nat)
    requires k <= |items|
    ensures Restricts(Fold(c, INITIAL, items[..k]), BirthsAfter(map[], items[..k], 0), INITIAL, k)
    ensures AtOrAfter(Tell(c, INITIAL, map[], items, 0), k)
         == AtOrAfter(Tell(c, Fold(c, INITIAL, items[..k]), BirthsAfter(map[], items[..k], 0), items[k..], k), k)
  {
    OpenExactly(c, items[..k], 0);
    assert items == items[..k] + items[k..];
    if k == 0 {
      assert items[..0] == [] && items[0..] == items;
    } else {
      TellBefore(c, INITIAL, map[], items[..k], items[k..], 0, k);
      AllOld(Fold(c, INITIAL, items[..k]).files, BirthsAfter(map[], items[..k], 0), k);
    }
  }

  /** What the archive says from the offset of a header on is what it says of the files whose filename
      record lies after that offset, out of all that it says. */
  lemma TailReport(c: Caller, items: seq<Item>, k: nat)
    requires AllWellFormed(items) && items != [] && items[0] == Header && k < |items| && items[k] == Header
    ensures |Encode(items[..k])| <= |Encode(items)|
    ensures Report(c, Encode(items)[|Encode(items[..k])|..]) == AtOrAfter(Tell(c, INITIAL, map[], items, 0), k)
    ensures Report(c, Encode(items)) == AtOrAfter(Tell(c, INITIAL, map[], items, 0), 0)
  {
    var st, born, tail := Fold(c, INITIAL, items[..k]), BirthsAfter(map[], items[..k], 0), items[k..];
    hide Tell, Later, Fold, AtOrAfter, Encode, Restricts, Report, BirthsAfter, WellFormed;
    assert tail[0] == Header && AllWellFormed(tail);
    TailBytes(items, k);
    StartRestricted(c, items, k);
    TellAfter(c, st, born, INITIAL, tail, k, k);
    TellIsLater(c, INITIAL, map[], items, 0);
    ReportIsLater(c, tail);
    ReportIsLater(c, items);
  }

  lemma ReportIsLater(c: Caller, items: seq<Item>)
    requires AllWellFormed(items) && items != [] && items[0] == Header
    ensures Report(c, Encode(items)) == Later(c, INITIAL, items)
  {
    hide Later, Fold, Encode, Report;
    FullReport(c, items, 0);
    assert items[..0] == [] && items[0..] == items;
    assert Fold(c, INITIAL, []) == INITIAL by { FoldNothing(c); }
  }

  /** Reading from the offset of any header delivers exactly what the full read reports of the files
      whose filename record lies after that offset, in order, whatever the minimum sizes and however
      each record is cut, unless a record is taken for another file's attribute on the way. */
  lemma ReadFromHeader(c: Caller, hs: seq<Handling>, ignores: Ignores, items: seq<Item>, k: nat, cuts: Cuts)
    requires AllWellFormed(items) && items != [] && items[0] == Header && k < |items| && items[k] == Header
    requires Terminated(hs) && Serves(c, hs, ignores) && !Clashes(c, INITIAL, NoCache, items[k..])
    ensures |Encode(items[..k])| <= |Encode(items)|
    ensures var x := ReadBytes(hs, ignores, Encode(items)[|Encode(items[..k])|..], cuts); var told := Tell(c, INITIAL, map[], items, 0);
      x.result == Success && Join(x.events).out == AtOrAfter(told, k) && Report(c, Encode(items)) == AtOrAfter(told, 0)
  {
    TailBytes(items, k);
    TailReport(c, items, k);
    FullFinal(c, items[k..]);
    hide Tell, AtOrAfter, Encode, Parse, Clashes, Fold, JoinOn, ReadItems;
    var n := ReadReports(hs, ignores, c, Encode(items[k..]), cuts);
  }

  lemma TailBytes(items: seq<Item>, k: nat)
    requires AllFit(items) && k <= |items|
    ensures |Encode(items[..k])| <= |Encode(items)|
    ensures Encode(items)[|Encode(items[..k])|..] == Encode(items[k..])
  {
    assert items == items[..k] + items[k..];
    EncodeAppend(items[..k], items[k..]);
  }

  /** Where records are taken for another file's attribute on the way: an attribute is freed too early
      exactly if such a record ends one; otherwise, if no data is kept back, every file and attribute is
      told what the full read reports of it exactly if no file is closed with an attribute stranded.
      No record is when files that are open at the same time never share attribute numbers. */
  lemma ConfusionFromHeader(c: Caller, hs: seq<Handling>, ignores: Ignores, items: seq<Item>, k: nat, cuts: Cuts)
    requires AllWellFormed(items) && items != [] && items[0] == Header && k < |items| && items[k] == Header
    requires Terminated(hs) && Serves(c, hs, ignores)
    ensures |Encode(items[..k])| <= |Encode(items)|
    ensures var x := ReadBytes(hs, ignores, Encode(items)[|Encode(items[..k])|..], cuts);
      && (x.result.Dangling? <==> FreesIn(c, UNTRACKED, items[k..]))
      && (HarmlessIn(c, hs, UNTRACKED, items[k..]) ==>
            (SameTold(Join(x.events).out, AtOrAfter(Tell(c, INITIAL, map[], items, 0), k)) <==> !StrandsIn(c, UNTRACKED, items[k..])))
    ensures NeverOverlaps(c, INITIAL, items) ==> !Clashes(c, INITIAL, NoCache, items[k..])
  {
    var tail := items[k..];
    TailBytes(items, k);
    TailReport(c, items, k);
    FullFinal(c, tail);
    assert Begins(Encode(tail));
    hide Tell, AtOrAfter, Encode, Parse, Clashes, Fold, JoinOn, ReadItems, FreesIn, HarmlessIn, StrandsIn, SameTold, NeverOverlaps, Begins, HandlingOf;
    FreedExactly(hs, ignores, c, Encode(tail), cuts);
    if HarmlessIn(c, hs, UNTRACKED, tail) {
      RightExactly(c, hs, ignores, tail, cuts);
    }
    if NeverOverlaps(c, INITIAL, items) {
      NoClashFrom(c, items, k);
    }
  }

  lemma NoClashFrom(c: Caller, items: seq<Item>, k: nat)
    requires AllWellFormed(items) && k <= |items| && NeverOverlaps(c, INITIAL, items)
    ensures !Clashes(c, INITIAL, NoCache, items[k..])
  {
    hide Clashes, NeverOverlaps, Restricts, Fold, Tell;
    StartRestricted(c, items, k);
    assert items == items[..k] + items[k..];
    NeverOverlapsSplit(c, INITIAL, items[..k], items[k..]);
    NoOverlapAfter(c, Fold(c, INITIAL, items[..k]), BirthsAfter(map[], items[..k], 0), INITIAL, items[k..], k, k);
    NoOverlapNoClash(c, INITIAL, NoCache, items[k..]);
  }

  lemma FoldNothing(c: Caller)
    ensures Fold(c, INITIAL, []) == INITIAL
  {}

  /** What this module and AmarTruncation prove holds of everything a writer writes, when files that
      are open at the same time do not share attribute numbers. */
  lemma WrittenArchives(c: Caller, ops: seq<W.Op>, k: nat)
    requires LegalRun(W.NO_FILES, ops) && FreshRun(W.NO_FILES, ops) && ApartRun(W.NO_FILES, ops)
    ensures Readable(c, ArchiveItems(ops))
    ensures k <= |ArchiveItems(ops)| ==> !Clashes(c, INITIAL, NoCache, ArchiveItems(ops)[k..])
  {
    ArchiveWellFormed(ops);
    ApartNoOverlap(c, ops);
    hide Clashes, NeverOverlaps, WellFormed;
    if k <= |ArchiveItems(ops)| {
      NoClashFrom(c, ArchiveItems(ops), k);
    }
    NoClashFrom(c, ArchiveItems(ops), 0);
    assert ArchiveItems(ops)[0..] == ArchiveItems(ops);
  }
}

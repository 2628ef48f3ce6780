/** Reading an archive that ends early, at any byte. */
module AmarTruncation {
  import opened AmarFormat
  import opened Text
  import opened AmarSemantics
  import opened AmarMachine
  import opened AmarDelivery
  import opened AmarRefinement
  import opened AmarReading

  // ---------- every started file is finished once ----------

  function StartsOf(c: Caller, obs: seq<Obs>, f: u16): nat {
    if obs == [] then 0
    else (if obs[0].Started? && obs[0].filenum == f && !c.ignores(f, obs[0].name) then 1 else 0) + StartsOf(c, obs[1..], f)
  }

  function FinishesOf(obs: seq<Obs>, f: u16): nat {
    if obs == [] then 0
    else (if obs[0].Finished? && obs[0].filenum == f then 1 else 0) + FinishesOf(obs[1..], f)
  }

  /** The open files of that number that are not ignored. */
  function OpenOf(files: seq<FileState>, f: u16): nat {
    if files == [] then 0
    else (if files[0].filenum == f && !files[0].ignore then 1 else 0) + OpenOf(files[1..], f)
  }

  lemma {:induction false} CountsAppend(c: Caller, x: seq<Obs>, y: seq<Obs>, f: u16)
    ensures StartsOf(c, x + y, f) == StartsOf(c, x, f) + StartsOf(c, y, f)
    ensures FinishesOf(x + y, f) == FinishesOf(x, f) + FinishesOf(y, f)
  {
    if x == [] {
      assert x + y == y;
    } else {
      assert (x + y)[1..] == x[1..] + y;
      CountsAppend(c, x[1..], y, f);
    }
  }

  lemma {:induction false} OpenWithout(files: seq<FileState>, i: nat, f: u16)
    requires i < |files|
    ensures OpenOf(files, f) == OpenOf(Without(files, i), f) + if files[i].filenum == f && !files[i].ignore then 1 else 0
  {
    if i == 0 {
      assert Without(files, 0) == files[1..];
    } else {
      OpenWithout(files[1..], i - 1, f);
      assert Without(files, i)[1..] == Without(files[1..], i - 1);
    }
  }

  lemma {:induction false} OpenSetAttrs(files: seq<FileState>, i: nat, attrs: seq<AttrState>, f: u16)
    requires i < |files|
    ensures OpenOf(SetAttrs(files, i, attrs), f) == OpenOf(files, f)
  {
    if i == 0 {
      assert SetAttrs(files, 0, attrs)[1..] == files[1..];
    } else {
      OpenSetAttrs(files[1..], i - 1, attrs, f);
      assert SetAttrs(files, i, attrs)[1..] == SetAttrs(files[1..], i - 1, attrs);
    }
  }

  lemma {:induction false} CloseAttrsCounts(c: Caller, g: u16, attrs: seq<AttrState>, f: u16)
    ensures StartsOf(c, CloseAttrs(c, g, attrs), f) == 0 && FinishesOf(CloseAttrs(c, g, attrs), f) == 0
  {
    if attrs != [] {
      CloseAttrsCounts(c, g, attrs[1..], f);
      CountsAppend(c, if c.wants(attrs[0].attrid) then [Attr(g, attrs[0].attrid, attrs[0].data, true)] else [],
                   CloseAttrs(c, g, attrs[1..]), f);
    }
  }

  lemma CloseFileCounts(c: Caller, file: FileState, truncated: bool, f: u16)
    ensures StartsOf(c, CloseFile(c, file, truncated), f) == 0
    ensures FinishesOf(CloseFile(c, file, truncated), f) == if file.filenum == f && !file.ignore then 1 else 0
  {
    CloseAttrsCounts(c, file.filenum, file.attrs, f);
    CountsAppend(c, CloseAttrs(c, file.filenum, file.attrs), if file.ignore then [] else [Finished(file.filenum, truncated)], f);
  }

  lemma {:induction false} CloseAllCounts(c: Caller, files: seq<FileState>, f: u16)
    ensures StartsOf(c, CloseAll(c, files), f) == 0 && FinishesOf(CloseAll(c, files), f) == OpenOf(files, f)
  {
    if files != [] {
      CloseAllCounts(c, files[1..], f);
      CloseFileCounts(c, files[0], true, f);
      CountsAppend(c, CloseFile(c, files[0], true), CloseAll(c, files[1..]), f);
    }
  }

  /** Files started are files finished and files open. */
  predicate Balanced(c: Caller, st: ReaderState, f: u16) {
    StartsOf(c, st.out, f) == FinishesOf(st.out, f) + OpenOf(st.files, f)
  }

  lemma CloseFoundBalanced(c: Caller, st: ReaderState, g: u16, truncated: bool, f: u16)
    requires Balanced(c, st, f)
    ensures Balanced(c, CloseFound(c, st, g, truncated), f)
  {
    var i := FindFile(st.files, g);
    if i < |st.files| {
      hide StartsOf, FinishesOf, OpenOf, CloseFile, Without;
      OpenWithout(st.files, i, f);
      CloseFileCounts(c, st.files[i], truncated, f);
      CountsAppend(c, st.out, CloseFile(c, st.files[i], truncated), f);
    }
  }

  lemma AddDataBalanced(c: Caller, st: ReaderState, g: u16, a: u16, eoa: bool, data: seq<byte>, f: u16)
    requires Balanced(c, st, f)
    ensures Balanced(c, AddData(c, st, g, a, eoa, data), f)
  {
    if Receives(st, g) {
      var i := FindFile(st.files, g);
      var attrs := st.files[i].attrs;
      OpenSetAttrs(st.files, i, if eoa then Without(attrs, FindAttr(attrs, a)) else Grow(c, attrs, a, data), f);
      CountsAppend(c, st.out, if c.wants(a) then [Attr(g, a, AllData(c, attrs, a, data), false)] else [], f);
    }
  }

  lemma StepBalanced(c: Caller, st: ReaderState, item: Item, f: u16)
    requires Balanced(c, st, f)
    ensures Balanced(c, Step(c, st, item), f)
  {
    match item
    case Header =>
    case Rec(g, a, eoa, data) =>
      if a == ATTR_EOF {
        CloseFoundBalanced(c, st, g, false, f);
      } else if a == ATTR_FILENAME {
        CloseFoundBalanced(c, st, g, true, f);
        var st1 := CloseFound(c, st, g, true);
        hide CloseFound;
        CountsAppend(c, st1.out, [Started(g, data)], f);
        assert Start(c, st1, g, data).files[1..] == st1.files;
      } else {
        AddDataBalanced(c, st, g, a, eoa, data, f);
      }
  }

  lemma {:induction false} FoldBalanced(c: Caller, st: ReaderState, items: seq<Item>, f: u16)
    requires Balanced(c, st, f)
    ensures Balanced(c, Fold(c, st, items), f)
    decreases |items|
  {
    hide Balanced, Step;
    if items != [] {
      StepBalanced(c, st, items[0], f);
      FoldBalanced(c, Step(c, st, items[0]), items[1..], f);
    }
  }

  lemma StopBalanced(c: Caller, hs: seq<Handling>, st: ReaderState, stop: Stop, k: nat, f: u16)
    requires Terminated(hs) && Balanced(c, st, f)
    ensures Balanced(c, StopsAt(c, hs, st, stop, k), f)
  {
    hide HandlingOf, Balanced, AddData, CloseFound;
    match stop
    case Padding(g) => CloseFoundBalanced(c, st, g, true, f);
    case EmptyName(g) => CloseFoundBalanced(c, st, g, true, f);
    case NameWithoutEoa(g) => CloseFoundBalanced(c, st, g, true, f);
    case Partial(g, a, eoa, data) => AddDataBalanced(c, st, g, a, false, PartOf(stop, k), f);
    case _ =>
  }

  /** However a read ends (unless with an error), each started file that is not ignored has been
      finished as often as it was started. */
  lemma FinishedOnce(c: Caller, hs: seq<Handling>, b: seq<byte>, k: nat, x: Delivered, f: u16)
    requires Terminated(hs) && Reports(c, hs, ReadAll(c, b), k, x) && x.result == Success
    ensures StartsOf(c, Join(x.events).out, f) == FinishesOf(Join(x.events).out, f)
  {
    var p, final := Parse(b), ReadAll(c, b);
    FoldBalanced(c, INITIAL, p.items, f);
    if p.stop.Partial? {
      AddDataBalanced(c, Fold(c, INITIAL, p.items), p.stop.filenum, p.stop.attrid, p.stop.eoa, p.stop.data, f);
    }
    var st := StopsAt(c, hs, final.st, final.end.stop, k);
    StopBalanced(c, hs, final.st, final.end.stop, k, f);
    hide StartsOf, FinishesOf, OpenOf, StopsAt, Fold;
    CloseAllCounts(c, st.files, f);
    CountsAppend(c, st.out, CloseAll(c, st.files), f);
  }

  // ---------- which files are flagged truncated ----------

  /** The last filename or end-of-file record of that number, if it is a filename. */
  function LastName(items: seq<Item>, f: u16): Option<seq<byte>> {
    if items == [] then None
    else
      var last := items[|items| - 1];
      if last.Rec? && last.filenum == f && last.attrid == ATTR_FILENAME then Some(last.data)
      else if last.Rec? && last.filenum == f && last.attrid == ATTR_EOF then None
      else LastName(items[..|items| - 1], f)
  }

  predicate DistinctFiles(files: seq<FileState>) {
    forall i, k | 0 <= i < k < |files| :: files[i].filenum != files[k].filenum
  }

  /** A file is open, and ignored or not, as its last filename record says. */
  predicate OpenAs(c: Caller, st: ReaderState, f: u16, name: Option<seq<byte>>) {
    && (Known(st, f) <==> name.Some?)
    && (name.Some? ==> st.files[FindFile(st.files, f)].ignore == c.ignores(f, name.value))
  }

  lemma FileAfterClose(c: Caller, st: ReaderState, g: u16, truncated: bool, f: u16)
    requires DistinctFiles(st.files)
    ensures var st' := CloseFound(c, st, g, truncated);
      && DistinctFiles(st'.files)
      && (Known(st', f) <==> Known(st, f) && f != g)
      && (Known(st', f) ==> st'.files[FindFile(st'.files, f)] == st.files[FindFile(st.files, f)])
  {
    var i, j := FindFile(st.files, g), FindFile(st.files, f);
    var st' := CloseFound(c, st, g, truncated);
    if i < |st.files| {
      assert forall k | 0 <= k < |st'.files| :: st'.files[k] == st.files[if k < i then k else k + 1];
      hide FindFile, CloseFile;
      FindFileIs(st'.files, f, if f == g || j == |st.files| then |st'.files| else if j < i then j else j - 1);
    }
  }

  lemma FileAfterStart(c: Caller, st: ReaderState, g: u16, name: seq<byte>, f: u16)
    requires DistinctFiles(st.files) && !Known(st, g)
    ensures var st' := Start(c, st, g, name);
      && DistinctFiles(st'.files)
      && (Known(st', f) <==> Known(st, f) || f == g)
      && (Known(st', f) ==>
            st'.files[FindFile(st'.files, f)] ==
            if f == g then FileState(g, c.ignores(g, name), []) else st.files[FindFile(st.files, f)])
  {
    var st' := Start(c, st, g, name);
    assert st'.files[1..] == st.files;
    assert forall k | 0 < k < |st'.files| :: st'.files[k] == st.files[k - 1];
    hide FindFile;
    FindFileIs(st'.files, f, if f == g then 0 else 1 + FindFile(st.files, f));
  }

  lemma FileAfterData(c: Caller, st: ReaderState, g: u16, a: u16, eoa: bool, data: seq<byte>, f: u16)
    requires DistinctFiles(st.files)
    ensures var st' := AddData(c, st, g, a, eoa, data);
      && DistinctFiles(st'.files)
      && FindFile(st'.files, f) == FindFile(st.files, f) && |st'.files| == |st.files|
      && (Known(st, f) ==>
           && st'.files[FindFile(st.files, f)].ignore == st.files[FindFile(st.files, f)].ignore
           && (f != g ==> st'.files[FindFile(st.files, f)] == st.files[FindFile(st.files, f)]))
  {
    var st' := AddData(c, st, g, a, eoa, data);
    FindFileIs(st'.files, f, FindFile(st.files, f));
  }

  lemma StepOpenAs(c: Caller, st: ReaderState, item: Item, f: u16, name: Option<seq<byte>>)
    requires DistinctFiles(st.files) && OpenAs(c, st, f, name)
    ensures DistinctFiles(Step(c, st, item).files)
    ensures OpenAs(c, Step(c, st, item), f,
      if item.Rec? && item.filenum == f && item.attrid == ATTR_FILENAME then Some(item.data)
      else if item.Rec? && item.filenum == f && item.attrid == ATTR_EOF then None
      else name)
  {
    if item.Rec? {
      var g, a := item.filenum, item.attrid;
      FileAfterClose(c, st, g, a == ATTR_FILENAME, f);
      FileAfterClose(c, st, g, a == ATTR_FILENAME, g);
      FileAfterStart(c, CloseFound(c, st, g, true), g, item.data, f) by {
        FileAfterClose(c, st, g, true, g);
        FileAfterClose(c, st, g, true, f);
      }
      FileAfterData(c, st, g, a, item.eoa, item.data, f);
      hide CloseFound, Start, AddData, FindFile, DistinctFiles;
    }
  }

  /** Which files are open after some items, for every number: a file whose filename record has
      been read but whose end-of-file record has not. */
  lemma {:induction false} OpenExactly(c: Caller, items: seq<Item>, f: u16)
    ensures DistinctFiles(Fold(c, INITIAL, items).files)
    ensures OpenAs(c, Fold(c, INITIAL, items), f, LastName(items, f))
    decreases |items|
  {
    if items != [] {
      var front, last := items[..|items| - 1], items[|items| - 1];
      assert items == front + [last];
      OpenExactly(c, front, f);
      FoldAppend(c, INITIAL, front, [last]);
      assert [last][1..] == [];
      assert Fold(c, Fold(c, INITIAL, front), [last]) == Step(c, Fold(c, INITIAL, front), last);
      StepOpenAs(c, Fold(c, INITIAL, front), last, f, LastName(front, f));
    }
  }

  /** Closing everything reports each open file that is not ignored once, as truncated. */
  lemma {:induction false} CloseAllOnce(c: Caller, files: seq<FileState>, f: u16)
    requires DistinctFiles(files)
    ensures var i := FindFile(files, f);
      OpenOf(files, f) == if i < |files| && !files[i].ignore then 1 else 0
    ensures forall k | 0 <= k < |CloseAll(c, files)| && CloseAll(c, files)[k].Finished? :: CloseAll(c, files)[k].truncated
    ensures forall k | 0 <= k < |CloseAll(c, files)| && CloseAll(c, files)[k].Attr? :: CloseAll(c, files)[k].truncated
  {
    if files != [] {
      CloseAllOnce(c, files[1..], f);
      CloseAttrsTruncated(c, files[0].filenum, files[0].attrs);
      if files[0].filenum == f {
        FindFileIs(files[1..], f, |files| - 1);
      }
    }
  }

  lemma {:induction false} CloseAttrsTruncated(c: Caller, f: u16, attrs: seq<AttrState>)
    ensures forall k | 0 <= k < |CloseAttrs(c, f, attrs)| :: CloseAttrs(c, f, attrs)[k].Attr? && CloseAttrs(c, f, attrs)[k].truncated
  {
    if attrs != [] {
      CloseAttrsTruncated(c, f, attrs[1..]);
    }
  }

  // ---------- what is delivered of a cut-off attribute ----------

  function FirstAttr(obs: seq<Obs>, f: u16, a: u16): Option<seq<byte>> {
    if obs == [] then None
    else if obs[0].Attr? && obs[0].filenum == f && obs[0].attrid == a then Some(obs[0].data)
    else FirstAttr(obs[1..], f, a)
  }

  lemma {:induction false} FirstAttrAppend(x: seq<Obs>, y: seq<Obs>, f: u16, a: u16)
    ensures FirstAttr(x + y, f, a) == if FirstAttr(x, f, a).Some? then FirstAttr(x, f, a) else FirstAttr(y, f, a)
  {
    if x == [] {
      assert x + y == y;
    } else {
      assert (x + y)[1..] == x[1..] + y;
      FirstAttrAppend(x[1..], y, f, a);
    }
  }

  /** Everything still reported when the items are read and the input ends. */
  function Later(c: Caller, st: ReaderState, items: seq<Item>): seq<Obs>
    decreases |items|
  {
    if items == [] then CloseAll(c, st.files)
    else Emitted(c, st, items[0]) + Later(c, Step(c, st, items[0]), items[1..])
  }

  lemma JoinThree<T>(x: seq<T>, y: seq<T>, z: seq<T>)
    ensures x + y + z == x + (y + z)
  {}

  lemma {:induction false} LaterIs(c: Caller, st: ReaderState, items: seq<Item>)
    ensures Fold(c, st, items).out + CloseAll(c, Fold(c, st, items).files) == st.out + Later(c, st, items)
    decreases |items|
  {
    hide Step, Emitted, CloseAll;
    if items != [] {
      StepEmits(c, st, items[0]);
      LaterIs(c, Step(c, st, items[0]), items[1..]);
      JoinThree(st.out, Emitted(c, st, items[0]), Later(c, Step(c, st, items[0]), items[1..]));
    }
  }

  /** The data of a wanted attribute that is open. */
  function OpenData(c: Caller, st: ReaderState, f: u16, a: u16): Option<seq<byte>> {
    if Receives(st, f) && c.wants(a) then Held(st.files[FindFile(st.files, f)].attrs, a) else None
  }

  predicate Tidy(st: ReaderState) {
    DistinctFiles(st.files) && forall i | 0 <= i < |st.files| && st.files[i].ignore :: st.files[i].attrs == []
  }

  lemma {:induction false} FirstInAttrs(c: Caller, g: u16, attrs: seq<AttrState>, f: u16, a: u16)
    ensures FirstAttr(CloseAttrs(c, g, attrs), f, a) == if g == f && c.wants(a) then Held(attrs, a) else None
  {
    if attrs != [] {
      FirstInAttrs(c, g, attrs[1..], f, a);
      FirstAttrAppend(if c.wants(attrs[0].attrid) then [Attr(g, attrs[0].attrid, attrs[0].data, true)] else [],
                      CloseAttrs(c, g, attrs[1..]), f, a);
    }
  }

  lemma FirstInFile(c: Caller, file: FileState, truncated: bool, f: u16, a: u16)
    ensures FirstAttr(CloseFile(c, file, truncated), f, a) ==
      if file.filenum == f && c.wants(a) then Held(file.attrs, a) else None
  {
    FirstInAttrs(c, file.filenum, file.attrs, f, a);
    FirstAttrAppend(CloseAttrs(c, file.filenum, file.attrs), if file.ignore then [] else [Finished(file.filenum, truncated)], f, a);
  }

  /** Closing everything reports the data of each open attribute. */
  lemma {:induction false} FirstInAll(c: Caller, st: ReaderState, f: u16, a: u16)
    requires Tidy(st)
    ensures FirstAttr(CloseAll(c, st.files), f, a) == OpenData(c, st, f, a)
    decreases |st.files|
  {
    if st.files != [] {
      var rest := ReaderState(st.files[1..], st.out);
      FirstInAll(c, rest, f, a);
      FirstInFile(c, st.files[0], true, f, a);
      FirstAttrAppend(CloseFile(c, st.files[0], true), CloseAll(c, rest.files), f, a);
      if st.files[0].filenum == f {
        FindFileIs(rest.files, f, |rest.files|);
      }
    }
  }

  lemma StepTidy(c: Caller, st: ReaderState, item: Item)
    requires Tidy(st)
    ensures Tidy(Step(c, st, item))
  {
    if item.Rec? {
      var g := item.filenum;
      FileAfterClose(c, st, g, item.attrid == ATTR_FILENAME, g);
      if item.attrid == ATTR_FILENAME {
        FileAfterStart(c, CloseFound(c, st, g, true), g, item.data, g);
      }
    }
  }

  lemma {:induction false} FoldTidy(c: Caller, st: ReaderState, items: seq<Item>)
    requires Tidy(st)
    ensures Tidy(Fold(c, st, items))
    decreases |items|
  {
    hide Tidy, Step;
    if items != [] {
      StepTidy(c, st, items[0]);
      FoldTidy(c, Step(c, st, items[0]), items[1..]);
    }
  }

  /** An open attribute is either reported by an item, with at least the data it has, or stays open. */
  lemma StepGrows(c: Caller, st: ReaderState, item: Item, f: u16, a: u16)
    requires Tidy(st) && OpenData(c, st, f, a).Some?
    ensures var d := OpenData(c, st, f, a).value;
      var said, st' := FirstAttr(Emitted(c, st, item), f, a), Step(c, st, item);
      if said.Some? then d <= said.value else OpenData(c, st', f, a).Some? && d <= OpenData(c, st', f, a).value
  {
    if item.Rec? {
      var g := item.filenum;
      if item.attrid == ATTR_EOF || item.attrid == ATTR_FILENAME {
        var truncated := item.attrid == ATTR_FILENAME;
        FileAfterClose(c, st, g, truncated, f);
        FileAfterClose(c, st, g, truncated, g);
        if Known(st, g) {
          FirstInFile(c, st.files[FindFile(st.files, g)], truncated, f, a);
        }
        if truncated {
          FileAfterStart(c, CloseFound(c, st, g, true), g, item.data, f);
          FirstAttrAppend(ClosingOf(c, st, g, true), [Started(g, item.data)], f, a);
        }
      } else {
        DataGrows(c, st, g, item.attrid, item.eoa, item.data, f, a);
      }
    }
  }

  lemma DataGrows(c: Caller, st: ReaderState, g: u16, b: u16, eoa: bool, data: seq<byte>, f: u16, a: u16)
    requires Tidy(st) && b != ATTR_EOF && b != ATTR_FILENAME
    ensures var had := OpenData(c, st, f, a);
      var said, now := FirstAttr(Emitted(c, st, Rec(g, b, eoa, data)), f, a), OpenData(c, AddData(c, st, g, b, eoa, data), f, a);
      if (g, b) == (f, a) && Receives(st, f) && c.wants(a) then
        var all := (if had.Some? then had.value else []) + data;
        if eoa then said == Some(all) else said == None && now == Some(all)
      else said == None && (now == had || (eoa && (g, b) == (f, a)))
  {
    hide FindAttr, FindFile, Grow, Without;
    FileAfterData(c, st, g, b, eoa, data, f);
    if g == f && Receives(st, f) {
      var attrs := st.files[FindFile(st.files, f)].attrs;
      HeldAfter(c, attrs, b, data, a);
      if a != b {
        HeldWithout(attrs, b, a);
      }
    }
  }

  lemma HeldAfter(c: Caller, attrs: seq<AttrState>, b: u16, data: seq<byte>, a: u16)
    ensures Held(Grow(c, attrs, b, data), a) == if a == b then Some(AllData(c, attrs, b, data)) else Held(attrs, a)
  {
    var i, j := FindAttr(attrs, b), FindAttr(attrs, a);
    var more := Grow(c, attrs, b, data);
    hide FindAttr, AllData;
    FindAttrIs(more, a, if i < |attrs| then j else if a == b then 0 else j + 1);
  }

  lemma HeldFirst(x: AttrState, rest: seq<AttrState>, a: u16)
    ensures Held([x] + rest, a) == if x.attrid == a then Some(x.data) else Held(rest, a)
  {
    assert ([x] + rest)[1..] == rest;
  }

  lemma WithoutFirst(x: AttrState, rest: seq<AttrState>, b: u16)
    ensures var all := [x] + rest;
      Without(all, FindAttr(all, b)) == if x.attrid == b then rest else [x] + Without(rest, FindAttr(rest, b))
  {
    assert ([x] + rest)[1..] == rest;
  }

  lemma {:induction false} HeldWithout(attrs: seq<AttrState>, b: u16, a: u16)
    requires a != b
    ensures Held(Without(attrs, FindAttr(attrs, b)), a) == Held(attrs, a)
  {
    if attrs != [] {
      hide Held, Without, FindAttr;
      var x, rest := attrs[0], attrs[1..];
      assert attrs == [x] + rest;
      WithoutFirst(x, rest, b);
      HeldFirst(x, rest, a);
      HeldFirst(x, Without(rest, FindAttr(rest, b)), a);
      HeldWithout(rest, b, a);
    }
  }

  /** Reading on reports at least the data an attribute has so far. */
  lemma {:induction false} Grows(c: Caller, st: ReaderState, items: seq<Item>, f: u16, a: u16)
    requires Tidy(st) && OpenData(c, st, f, a).Some?
    ensures FirstAttr(Later(c, st, items), f, a).Some?
    ensures OpenData(c, st, f, a).value <= FirstAttr(Later(c, st, items), f, a).value
    decreases |items|
  {
    hide Tidy, Step, Emitted, OpenData, CloseAll;
    if items == [] {
      FirstInAll(c, st, f, a);
    } else {
      StepGrows(c, st, items[0], f, a);
      StepTidy(c, st, items[0]);
      FirstAttrAppend(Emitted(c, st, items[0]), Later(c, Step(c, st, items[0]), items[1..]), f, a);
      if FirstAttr(Emitted(c, st, items[0]), f, a).None? {
        Grows(c, Step(c, st, items[0]), items[1..], f, a);
      }
    }
  }

  /** ... also when the input ended inside the next record: part of its data has been used. */
  lemma GrowsFromPart(c: Caller, st: ReaderState, items: seq<Item>, used: seq<byte>, f: u16, a: u16)
    requires Tidy(st) && items != [] && items[0].Rec? && items[0].attrid >= ATTR_APP_START && used <= items[0].data
    requires var s := AddData(c, st, items[0].filenum, items[0].attrid, false, used); OpenData(c, s, f, a).Some?
    ensures var s := AddData(c, st, items[0].filenum, items[0].attrid, false, used);
      && FirstAttr(Later(c, st, items), f, a).Some?
      && OpenData(c, s, f, a).value <= FirstAttr(Later(c, st, items), f, a).value
  {
    var g, b, eoa, data := items[0].filenum, items[0].attrid, items[0].eoa, items[0].data;
    DataGrows(c, st, g, b, false, used, f, a);
    if (g, b) == (f, a) {
      DataGrows(c, st, g, b, eoa, data, f, a);
      StepTidy(c, st, items[0]);
      FirstAttrAppend(Emitted(c, st, items[0]), Later(c, Step(c, st, items[0]), items[1..]), f, a);
      if !eoa {
        Grows(c, Step(c, st, items[0]), items[1..], f, a);
      }
    } else {
      Grows(c, st, items, f, a);
    }
  }

  // ---------- each open attribute is reported once ----------

  predicate DistinctAttrs(attrs: seq<AttrState>) {
    forall j, k | 0 <= j < k < |attrs| :: attrs[j].attrid != attrs[k].attrid
  }

  predicate NoTwins(st: ReaderState) {
    forall i | 0 <= i < |st.files| :: DistinctAttrs(st.files[i].attrs)
  }

  function AttrsOf(obs: seq<Obs>, f: u16, a: u16): nat {
    if obs == [] then 0
    else (if obs[0].Attr? && obs[0].filenum == f && obs[0].attrid == a then 1 else 0) + AttrsOf(obs[1..], f, a)
  }

  lemma {:induction false} AttrsOfAppend(x: seq<Obs>, y: seq<Obs>, f: u16, a: u16)
    ensures AttrsOf(x + y, f, a) == AttrsOf(x, f, a) + AttrsOf(y, f, a)
  {
    if x == [] {
      assert x + y == y;
    } else {
      assert (x + y)[1..] == x[1..] + y;
      AttrsOfAppend(x[1..], y, f, a);
    }
  }

  lemma GrowDistinct(c: Caller, attrs: seq<AttrState>, a: u16, data: seq<byte>)
    requires DistinctAttrs(attrs)
    ensures DistinctAttrs(Grow(c, attrs, a, data)) && DistinctAttrs(Without(attrs, FindAttr(attrs, a)))
  {
    var j := FindAttr(attrs, a);
    var more, left := Grow(c, attrs, a, data), Without(attrs, j);
    if j < |attrs| {
      assert forall k | 0 <= k < |left| :: left[k] == attrs[if k < j then k else k + 1];
    } else {
      assert forall k | 0 < k < |more| :: more[k] == attrs[k - 1];
    }
  }

  lemma StepNoTwins(c: Caller, st: ReaderState, item: Item)
    requires NoTwins(st)
    ensures NoTwins(Step(c, st, item))
  {
    if item.Rec? && item.attrid != ATTR_EOF && item.attrid != ATTR_FILENAME {
      DataNoTwins(c, st, item.filenum, item.attrid, item.eoa, item.data);
    }
  }

  lemma DataNoTwins(c: Caller, st: ReaderState, f: u16, a: u16, eoa: bool, data: seq<byte>)
    requires NoTwins(st)
    ensures NoTwins(AddData(c, st, f, a, eoa, data))
  {
    hide Grow, Without;
    if Receives(st, f) {
      GrowDistinct(c, st.files[FindFile(st.files, f)].attrs, a, data);
    }
  }

  lemma {:induction false} FoldNoTwins(c: Caller, st: ReaderState, items: seq<Item>)
    requires NoTwins(st)
    ensures NoTwins(Fold(c, st, items))
    decreases |items|
  {
    hide NoTwins, Step;
    if items != [] {
      StepNoTwins(c, st, items[0]);
      FoldNoTwins(c, Step(c, st, items[0]), items[1..]);
    }
  }

  lemma {:induction false} CloseAttrsAtMostOnce(c: Caller, g: u16, attrs: seq<AttrState>, f: u16, a: u16)
    requires DistinctAttrs(attrs)
    ensures AttrsOf(CloseAttrs(c, g, attrs), f, a) <= if g == f && FindAttr(attrs, a) < |attrs| then 1 else 0
  {
    if attrs != [] {
      CloseAttrsAtMostOnce(c, g, attrs[1..], f, a);
      AttrsOfAppend(if c.wants(attrs[0].attrid) then [Attr(g, attrs[0].attrid, attrs[0].data, true)] else [],
                    CloseAttrs(c, g, attrs[1..]), f, a);
      if attrs[0].attrid == a {
        FindAttrIs(attrs[1..], a, |attrs| - 1);
      }
    }
  }

  lemma {:induction false} CloseAllAtMostOnce(c: Caller, files: seq<FileState>, f: u16, a: u16)
    requires DistinctFiles(files) && forall i | 0 <= i < |files| :: DistinctAttrs(files[i].attrs)
    ensures AttrsOf(CloseAll(c, files), f, a) <= if FindFile(files, f) < |files| then 1 else 0
  {
    if files != [] {
      var file := files[0];
      CloseAllAtMostOnce(c, files[1..], f, a);
      CloseAttrsAtMostOnce(c, file.filenum, file.attrs, f, a);
      AttrsOfAppend(CloseAttrs(c, file.filenum, file.attrs), if file.ignore then [] else [Finished(file.filenum, true)], f, a);
      AttrsOfAppend(CloseFile(c, file, true), CloseAll(c, files[1..]), f, a);
      if file.filenum == f {
        FindFileIs(files[1..], f, |files| - 1);
      }
    }
  }

  // ---------- the theorem ----------

  lemma {:induction false} ClashesSplit(c: Caller, st: ReaderState, cache: Cache, xs: seq<Item>, ys: seq<Item>)
    requires !Clashes(c, st, cache, xs + ys)
    ensures !Clashes(c, st, cache, xs)
    ensures !Clashes(c, Fold(c, st, xs), FoldCache(c, st, cache, xs), ys)
    decreases |xs|
  {
    hide Step, NextCache, ItemClashes;
    if xs == [] {
      assert xs + ys == ys;
    } else {
      assert (xs + ys)[0] == xs[0] && (xs + ys)[1..] == xs[1..] + ys;
      ClashesSplit(c, Step(c, st, xs[0]), NextCache(st, cache, xs[0]), xs[1..], ys);
    }
  }

  /** Archives as a writer begins them, which the reader does not misread. */
  predicate Readable(c: Caller, items: seq<Item>) {
    AllWellFormed(items) && items != [] && items[0] == Header && !Clashes(c, INITIAL, NoCache, items)
  }

  /** The bytes of a readable archive, cut anywhere, start like an archive. */
  lemma PrefixStart(items: seq<Item>, n: nat)
    requires AllWellFormed(items) && items != [] && items[0] == Header
    requires RECORD_SIZE <= n <= |Encode(items)|
    ensures DecodeRecordHeader(Encode(items)[..n]).filenum == MAGIC_FILENUM
  {
    var b := Encode(items)[..n];
    assert b[0] == HEADER_BYTES[0] == 65 && b[1] == HEADER_BYTES[1] == 77;
    MagicStart(b);
  }

  /** What is left over of the record in which the input ends. */
  function LeftOver(items: seq<Item>, n: nat): Stop
    requires AllFit(items) && n <= |Encode(items)|
  {
    var w := WholeItems(items, n);
    WholeItemsLength(items, n);
    if w == |items| then Eof else TruncatedStop(items[w], n - |Encode(items[..w])|)
  }

  /** The input ends inside the record of items[0], if anything of it is left over. */
  predicate StopsIn(stop: Stop, items: seq<Item>) {
    stop == Eof ||
    (stop.Partial? && items != [] && items[0].Rec? && stop.filenum == items[0].filenum && stop.attrid == items[0].attrid
      && stop.eoa == items[0].eoa && stop.attrid >= ATTR_APP_START && stop.data <= items[0].data)
  }

  lemma LeftOverStops(items: seq<Item>, n: nat)
    requires AllFit(items) && n <= |Encode(items)|
    ensures StopsIn(LeftOver(items, n), items[WholeItems(items, n)..])
  {
    hide EncodeItem;
    WholeItemsLength(items, n);
  }

  lemma PrefixFinal(c: Caller, items: seq<Item>, n: nat)
    requires AllWellFormed(items) && items != [] && items[0] == Header && n <= |Encode(items)|
    ensures ReadAll(c, Encode(items)[..n]) == Settle(c, Fold(c, INITIAL, items[..WholeItems(items, n)]), LeftOver(items, n))
  {
    ParseLeftOver(items, n);
    if RECORD_SIZE <= n {
      PrefixStart(items, n);
    }
    hide Settle, Fold, LeftOver, WholeItems, Encode;
  }

  /** A cut-off archive confuses the reader no more than the archive does. */
  lemma PrefixUnconfused(c: Caller, items: seq<Item>, n: nat)
    requires Readable(c, items) && n <= |Encode(items)|
    ensures Unconfused(c, Encode(items)[..n])
  {
    hide Fold, FoldCache, WholeItems, LeftOver, Clashes, Clash, Encode;
    var w := WholeItems(items, n);
    ParseLeftOver(items, n);
    assert items == items[..w] + items[w..];
    ClashesSplit(c, INITIAL, NoCache, items[..w], items[w..]);
    LeftOverStops(items, n);
    NoClashThere(c, Fold(c, INITIAL, items[..w]), FoldCache(c, INITIAL, NoCache, items[..w]), items[w..], LeftOver(items, n));
  }

  lemma NoClashThere(c: Caller, st: ReaderState, cache: Cache, items: seq<Item>, stop: Stop)
    requires !Clashes(c, st, cache, items) && StopsIn(stop, items)
    ensures stop.Partial? ==> !Clash(st, cache, stop.filenum, stop.attrid)
  {}

  lemma ParseLeftOver(items: seq<Item>, n: nat)
    requires AllWellFormed(items) && n <= |Encode(items)|
    ensures Parse(Encode(items)[..n]) == Parsed(items[..WholeItems(items, n)], LeftOver(items, n))
  {
    hide TruncatedStop, WholeItems, Encode;
    ParsePrefix(items, n);
  }

  /** Nothing more was reported, the same files are open, and their attributes hold no more than
      reading on reports. */
  ghost predicate Behind(c: Caller, st: ReaderState, s: ReaderState, items: seq<Item>) {
    && s.out == st.out && Tidy(s) && NoTwins(s)
    && (forall f: u16, name :: OpenAs(c, st, f, name) ==> OpenAs(c, s, f, name))
    && (forall f: u16, a: u16 | OpenData(c, s, f, a).Some? ::
          PrefixOf(OpenData(c, s, f, a), FirstAttr(Later(c, st, items), f, a)))
  }

  predicate PrefixOf(x: Option<seq<byte>>, y: Option<seq<byte>>) {
    x.Some? ==> y.Some? && x.value <= y.value
  }

  lemma BehindSelf(c: Caller, st: ReaderState, items: seq<Item>)
    requires Tidy(st) && NoTwins(st)
    ensures Behind(c, st, st, items)
  {
    hide Tidy, NoTwins, OpenAs, OpenData, Later;
    forall f: u16, a: u16 | OpenData(c, st, f, a).Some?
      ensures PrefixOf(OpenData(c, st, f, a), FirstAttr(Later(c, st, items), f, a))
    {
      Grows(c, st, items, f, a);
    }
  }

  lemma AddDataTidy(c: Caller, st: ReaderState, g: u16, b: u16, eoa: bool, data: seq<byte>)
    requires Tidy(st) && b >= ATTR_APP_START
    ensures Tidy(AddData(c, st, g, b, eoa, data))
    ensures forall f: u16, name :: OpenAs(c, st, f, name) ==> OpenAs(c, AddData(c, st, g, b, eoa, data), f, name)
  {
    StepTidy(c, st, Rec(g, b, eoa, data));
    forall f: u16, name | OpenAs(c, st, f, name)
      ensures OpenAs(c, AddData(c, st, g, b, eoa, data), f, name)
    {
      FileAfterData(c, st, g, b, eoa, data, f);
    }
  }

  lemma BehindPart(c: Caller, st: ReaderState, items: seq<Item>, used: seq<byte>)
    requires Tidy(st) && NoTwins(st)
    requires items != [] && items[0].Rec? && items[0].attrid >= ATTR_APP_START && used <= items[0].data
    ensures Behind(c, st, AddData(c, st, items[0].filenum, items[0].attrid, false, used), items)
  {
    var s := AddData(c, st, items[0].filenum, items[0].attrid, false, used);
    AddDataTidy(c, st, items[0].filenum, items[0].attrid, false, used);
    DataNoTwins(c, st, items[0].filenum, items[0].attrid, false, used);
    assert s.out == st.out;
    hide Tidy, NoTwins, OpenAs, OpenData, Later, AddData;
    forall f: u16, a: u16 | OpenData(c, s, f, a).Some?
      ensures PrefixOf(OpenData(c, s, f, a), FirstAttr(Later(c, st, items), f, a))
    {
      GrowsFromPart(c, st, items, used, f, a);
    }
  }

  lemma BehindUnwanted(c: Caller, st: ReaderState, items: seq<Item>, g: u16, b: u16, eoa: bool, data: seq<byte>)
    requires Tidy(st) && NoTwins(st) && b >= ATTR_APP_START
    requires !(Receives(st, g) && c.wants(b))
    ensures Behind(c, st, AddData(c, st, g, b, eoa, data), items)
  {
    var s := AddData(c, st, g, b, eoa, data);
    AddDataTidy(c, st, g, b, eoa, data);
    DataNoTwins(c, st, g, b, eoa, data);
    hide NoTwins;
    forall f: u16, a: u16 | OpenData(c, s, f, a).Some?
      ensures PrefixOf(OpenData(c, s, f, a), FirstAttr(Later(c, st, items), f, a))
    {
      DataGrows(c, st, g, b, eoa, data, f, a);
      Grows(c, st, items, f, a);
    }
  }

  /** However far into the cut-off record the reader got. */
  lemma StopsBehind(c: Caller, hs: seq<Handling>, st: ReaderState, stop: Stop, items: seq<Item>, k: nat)
    requires Terminated(hs) && Tidy(st) && NoTwins(st) && StopsIn(stop, items)
    ensures var final := Settle(c, st, stop); Behind(c, st, StopsAt(c, hs, final.st, final.end.stop, k), items)
  {
    hide Tidy, NoTwins, Behind, AddData, HandlingOf, HasState;
    BehindSelf(c, st, items);
    if stop.Partial? {
      if Receives(st, stop.filenum) && c.wants(stop.attrid) {
        BehindPart(c, st, items, PartOf(stop, k));
      } else {
        BehindUnwanted(c, st, items, stop.filenum, stop.attrid, stop.eoa, stop.data);
      }
    }
  }

  lemma WhereItStops(c: Caller, hs: seq<Handling>, items: seq<Item>, n: nat, k: nat)
    requires Terminated(hs) && Readable(c, items) && n <= |Encode(items)|
    ensures var w, final := WholeItems(items, n), ReadAll(c, Encode(items)[..n]);
      && final.end.Ended? && !IsError(final.end.stop)
      && Behind(c, Fold(c, INITIAL, items[..w]), StopsAt(c, hs, final.st, final.end.stop, k), items[w..])
  {
    hide Fold, Tidy, NoTwins, Behind, ReadAll, StopsAt, LeftOver, WholeItems, CloseAll, Clashes, HandlingOf;
    var w := WholeItems(items, n);
    PrefixFinal(c, items, n);
    FoldsTidily(c, items[..w]);
    LeftOverStops(items, n);
    StopsBehind(c, hs, Fold(c, INITIAL, items[..w]), LeftOver(items, n), items[w..], k);
  }

  lemma FoldsTidily(c: Caller, items: seq<Item>)
    ensures Tidy(Fold(c, INITIAL, items)) && NoTwins(Fold(c, INITIAL, items))
  {
    FoldTidy(c, INITIAL, items);
    FoldNoTwins(c, INITIAL, items);
  }

  /** The files still open are all finished once, and all are flagged truncated. */
  predicate ClosedShort(c: Caller, tail: seq<Obs>, f: u16, name: Option<seq<byte>>) {
    && StartsOf(c, tail, f) == 0
    && FinishesOf(tail, f) == (if name.Some? && !c.ignores(f, name.value) then 1 else 0)
    && forall i | 0 <= i < |tail| :: !tail[i].Started? && tail[i].truncated
  }

  lemma {:induction false} CloseAllShort(c: Caller, files: seq<FileState>)
    ensures forall i | 0 <= i < |CloseAll(c, files)| :: !CloseAll(c, files)[i].Started? && CloseAll(c, files)[i].truncated
  {
    if files != [] {
      CloseAllShort(c, files[1..]);
      CloseAttrsTruncated(c, files[0].filenum, files[0].attrs);
    }
  }

  /** What a read reports when nothing is wrong with its input. */
  function Report(c: Caller, b: seq<byte>): seq<Obs> {
    ReadAll(c, b).st.out + CloseAll(c, ReadAll(c, b).st.files)
  }

  /** Parsing a whole archive, and reading it. */
  lemma FullFinal(c: Caller, items: seq<Item>)
    requires AllWellFormed(items) && items != [] && items[0] == Header
    ensures Parse(Encode(items)) == Parsed(items, Eof)
    ensures ReadAll(c, Encode(items)) == Final(Fold(c, INITIAL, items), Ended(Eof))
  {
    ParseEncode(items);
    if RECORD_SIZE <= |Encode(items)| {
      PrefixStart(items, |Encode(items)|);
    }
    assert Encode(items)[..|Encode(items)|] == Encode(items);
  }

  lemma FullReport(c: Caller, items: seq<Item>, w: nat)
    requires AllWellFormed(items) && items != [] && items[0] == Header && w <= |items|
    ensures Report(c, Encode(items)) == Fold(c, INITIAL, items[..w]).out + Later(c, Fold(c, INITIAL, items[..w]), items[w..])
  {
    FullFinal(c, items);
    assert items == items[..w] + items[w..];
    FoldAppend(c, INITIAL, items[..w], items[w..]);
    LaterIs(c, Fold(c, INITIAL, items[..w]), items[w..]);
  }

  lemma {:induction false} NoneFirst(obs: seq<Obs>, f: u16, a: u16)
    ensures AttrsOf(obs, f, a) == 0 <==> FirstAttr(obs, f, a).None?
  {
    if obs != [] {
      NoneFirst(obs[1..], f, a);
    }
  }

  /** The end of the input inside a single record whose end never comes: what was handed over of it
      begins the record's data. */
  lemma LooseBegins(c: Caller, hs: seq<Handling>, st: ReaderState, stop: Stop, items: seq<Item>, k: nat, f: u16, a: u16)
    requires Terminated(hs) && Tidy(st) && StopsIn(stop, items)
    requires var final := Settle(c, st, stop); Loose(hs, final.st, final.end.stop, k, f, a) != []
    ensures var final := Settle(c, st, stop); var part := Loose(hs, final.st, final.end.stop, k, f, a);
      && StopsAt(c, hs, final.st, final.end.stop, k) == st
      && OpenData(c, st, f, a) == None && PrefixOf(Some(part), FirstAttr(Later(c, st, items), f, a))
  {
    var whole := items[0].data;
    hide HandlingOf, Tidy, Step, CloseAll;
    DataGrows(c, st, f, a, true, whole, f, a);
    FirstAttrAppend(Emitted(c, st, items[0]), Later(c, Step(c, st, items[0]), items[1..]), f, a);
    assert [] + whole == whole;
  }

  /** Everything handed over of an attribute since the common part, ended or not. */
  function Given(js: Joined, n: nat, f: u16, a: u16): seq<byte>
    requires n <= |js.out|
  {
    var ended := FirstAttr(js.out[n..], f, a);
    (if ended.Some? then ended.value else []) + Pend(js, f, a)
  }

  /** What a read of the first n bytes gives of file f and its attribute a: the records wholly present
      are reported as in the full read; then the file is finished once, flagged truncated, if its
      end-of-file record is missing; and what is reported of the attribute's data, once at most, or
      handed over without an end, begins what the full read reports of it. */
  ghost predicate CutRight(c: Caller, items: seq<Item>, n: nat, js: Joined, f: u16, a: u16)
    requires AllFit(items) && n <= |Encode(items)|
  {
    var w := WholeItems(items, n);
    var common, full := Fold(c, INITIAL, items[..w]).out, Report(c, Encode(items));
    && common <= js.out && common <= full
    && ClosedShort(c, js.out[|common|..], f, LastName(items[..w], f))
    && AttrsOf(js.out[|common|..], f, a) + (if Pend(js, f, a) != [] then 1 else 0) <= 1
    && PrefixOf(FirstAttr(js.out[|common|..], f, a), FirstAttr(full[|common|..], f, a))
    && (Pend(js, f, a) != [] ==> PrefixOf(Some(Pend(js, f, a)), FirstAttr(full[|common|..], f, a)))
  }

  /** Reading an archive that was cut at any byte is never an error, and gives of every file and
      attribute what the full read gives, as far as the bytes go, whatever the minimum sizes and
      however each record was cut. */
  lemma TruncatedRead(c: Caller, hs: seq<Handling>, ignores: Ignores, items: seq<Item>, n: nat, cuts: Cuts, f: u16, a: u16)
    requires Terminated(hs) && Serves(c, hs, ignores) && Readable(c, items) && n <= |Encode(items)|
    ensures var x := ReadBytes(hs, ignores, Encode(items)[..n], cuts);
      x.result == Success && CutRight(c, items, n, Join(x.events), f, a)
  {
    PrefixUnconfused(c, items, n);
    hide Readable, Encode, ReadItems, Reports, HandlingOf, Unconfused, ReadAll, Fold, Report, ClosedShort, AttrsOf, FirstAttr, JoinOn, LastName, WholeItems;
    var k := ReadReports(hs, ignores, c, Encode(items)[..n], cuts);
    TruncatedReports(c, hs, items, n, k, ReadBytes(hs, ignores, Encode(items)[..n], cuts), f, a);
  }

  lemma TruncatedReports(c: Caller, hs: seq<Handling>, items: seq<Item>, n: nat, k: nat, x: Delivered, f: u16, a: u16)
    requires Terminated(hs) && Readable(c, items) && n <= |Encode(items)|
    requires Reports(c, hs, ReadAll(c, Encode(items)[..n]), k, x)
    ensures x.result == Success
    ensures var w := WholeItems(items, n); var common := Fold(c, INITIAL, items[..w]).out; var full := Report(c, Encode(items));
      var js := Join(x.events); var out := js.out;
      && common <= out && common <= full
      && ClosedShort(c, out[|common|..], f, LastName(items[..w], f))
      && AttrsOf(out[|common|..], f, a) + (if Pend(js, f, a) != [] then 1 else 0) <= 1
      && PrefixOf(FirstAttr(out[|common|..], f, a), FirstAttr(full[|common|..], f, a))
      && (Pend(js, f, a) != [] ==> PrefixOf(Some(Pend(js, f, a)), FirstAttr(full[|common|..], f, a)))
  {
    var w := WholeItems(items, n);
    var st := Fold(c, INITIAL, items[..w]);
    var final := ReadAll(c, Encode(items)[..n]);
    WhereItStops(c, hs, items, n, k);
    var s := StopsAt(c, hs, final.st, final.end.stop, k);
    FoldsTidily(c, items[..w]);
    CutLoosely(c, hs, items, n, k, f, a);
    FullReport(c, items, w);
    OpenExactly(c, items[..w], f);
    hide Later, CloseAll, Fold, NoTwins, HandlingOf, StopsAt, ReadAll, Loose, Join;
    CloseAllCounts(c, s.files, f);
    CloseAllOnce(c, s.files, f);
    CloseAllShort(c, s.files);
    FirstInAll(c, s, f, a);
    CloseAllAtMostOnce(c, s.files, f, a);
    NoneFirst(CloseAll(c, s.files), f, a);
    assert Join(x.events).out[|st.out|..] == CloseAll(c, s.files);
    assert Report(c, Encode(items))[|st.out|..] == Later(c, st, items[w..]);
  }

  lemma CutLoosely(c: Caller, hs: seq<Handling>, items: seq<Item>, n: nat, k: nat, f: u16, a: u16)
    requires Terminated(hs) && Readable(c, items) && n <= |Encode(items)|
    ensures var w, final := WholeItems(items, n), ReadAll(c, Encode(items)[..n]);
      var st := Fold(c, INITIAL, items[..w]);
      final.end.Ended? &&
      var part := Loose(hs, final.st, final.end.stop, k, f, a);
      part != [] ==>
        StopsAt(c, hs, final.st, final.end.stop, k) == st && OpenData(c, st, f, a) == None
        && PrefixOf(Some(part), FirstAttr(Later(c, st, items[w..]), f, a))
  {
    var w, final := WholeItems(items, n), ReadAll(c, Encode(items)[..n]);
    PrefixFinal(c, items, n);
    FoldsTidily(c, items[..w]);
    LeftOverStops(items, n);
    hide HandlingOf, Fold, Tidy, NoTwins, StopsAt, Later, LeftOver, WholeItems, StopsIn, Loose, OpenData;
    if Loose(hs, final.st, final.end.stop, k, f, a) != [] {
      LooseBegins(c, hs, Fold(c, INITIAL, items[..w]), LeftOver(items, n), items[w..], k, f, a);
    }
  }

  /** The reader's state where the input ends inside data that is wanted. */
  lemma CutWanted(c: Caller, b: seq<byte>)
    requires ReadAll(c, b).end.Ended? && ReadAll(c, b).end.stop.Partial?
    ensures var final := ReadAll(c, b); var stop := final.end.stop;
      && stop == Parse(b).stop && final.st == Fold(c, INITIAL, Parse(b).items) && ProperStop(stop)
      && Tidy(final.st) && NoTwins(final.st) && Receives(final.st, stop.filenum) && c.wants(stop.attrid)
  {
    ParsesProperly(b);
    FoldsTidily(c, Parse(b).items);
    hide Tidy, NoTwins, Fold, Parse, Receives;
  }

  /** What is open of the attribute in which the input ends, once the reader has stopped. */
  lemma CutData(c: Caller, hs: seq<Handling>, st: ReaderState, stop: Stop, k: nat)
    requires Terminated(hs) && Tidy(st) && NoTwins(st) && stop.Partial? && ProperStop(stop)
    requires Receives(st, stop.filenum) && c.wants(stop.attrid)
    ensures var s := StopsAt(c, hs, st, stop, k); var part := PartOf(stop, k);
      && Tidy(s) && NoTwins(s) && s.out == st.out
      && OpenData(c, s, stop.filenum, stop.attrid) ==
           if NeverEnded(hs, st, stop, |part|) then None else Some(HeldBy(st, stop.filenum, stop.attrid) + part)
  {
    var f, a, part := stop.filenum, stop.attrid, PartOf(stop, k);
    hide HandlingOf, NoTwins;
    AddDataTidy(c, st, f, a, false, part);
    DataNoTwins(c, st, f, a, false, part);
    hide Tidy;
    DataGrows(c, st, f, a, false, part, f, a);
  }

  /** Where the input ends inside data that is wanted, the attribute's callback is told of an end
      (flagged truncated), exactly once, unless the record is the attribute's only one, the attribute
      has no state, and the bytes of it that were in the buffer are no fewer than the minimum size:
      then exactly no end is told. */
  lemma MissingEnd(c: Caller, hs: seq<Handling>, b: seq<byte>, k: nat, x: Delivered)
    requires Terminated(hs) && Reports(c, hs, ReadAll(c, b), k, x)
    requires ReadAll(c, b).end.Ended? && ReadAll(c, b).end.stop.Partial?
    ensures var final, js := ReadAll(c, b), Join(x.events); var stop := final.end.stop; var f, a := stop.filenum, stop.attrid;
      && final.st.out <= js.out
      && AttrsOf(js.out[|final.st.out|..], f, a) <= 1
      && (AttrsOf(js.out[|final.st.out|..], f, a) == 0 <==>
            stop.eoa && !HasState(final.st, f, a) && HandlingOf(hs, a).minSize <= |PartOf(stop, k)|)
  {
    var final := ReadAll(c, b);
    var stop := final.end.stop;
    CutWanted(c, b);
    CutData(c, hs, final.st, stop, k);
    var s := StopsAt(c, hs, final.st, stop, k);
    hide HandlingOf, Tidy, StopsAt, HasState, Receives, ReadAll, CloseAll, Join;
    FirstInAll(c, s, stop.filenum, stop.attrid);
    NoneFirst(CloseAll(c, s.files), stop.filenum, stop.attrid);
    assert Tidy(s) && NoTwins(s) ==> DistinctFiles(s.files) by { TidyMeans(s); }
    CloseAllAtMostOnce(c, s.files, stop.filenum, stop.attrid);
    assert Join(x.events).out[|final.st.out|..] == CloseAll(c, s.files);
  }

  lemma TidyMeans(st: ReaderState)
    requires Tidy(st)
    ensures DistinctFiles(st.files)
  {}

  // ---------- buffering ----------

  /** The observations without those of one attribute. */
  function Except(obs: seq<Obs>, f: u16, a: u16): seq<Obs> {
    if obs == [] then []
    else (if obs[0].Attr? && obs[0].filenum == f && obs[0].attrid == a then [] else [obs[0]]) + Except(obs[1..], f, a)
  }

  lemma {:induction false} ExceptAppend(x: seq<Obs>, y: seq<Obs>, f: u16, a: u16)
    ensures Except(x + y, f, a) == Except(x, f, a) + Except(y, f, a)
  {
    if x == [] {
      assert x + y == y;
    } else {
      var first := if x[0].Attr? && x[0].filenum == f && x[0].attrid == a then [] else [x[0]];
      assert (x + y)[1..] == x[1..] + y;
      ExceptAppend(x[1..], y, f, a);
      JoinThree(first, Except(x[1..], f, a), Except(y, f, a));
    }
  }

  lemma ExceptFirst(c: Caller, f: u16, x: AttrState, rest: seq<AttrState>, a: u16)
    ensures Except(CloseAttrs(c, f, [x] + rest), f, a) ==
      (if c.wants(x.attrid) && x.attrid != a then [Attr(f, x.attrid, x.data, true)] else []) + Except(CloseAttrs(c, f, rest), f, a)
  {
    assert ([x] + rest)[1..] == rest;
    var first := if c.wants(x.attrid) then [Attr(f, x.attrid, x.data, true)] else [];
    ExceptAppend(first, CloseAttrs(c, f, rest), f, a);
    assert first != [] ==> first[1..] == [] && [Attr(f, x.attrid, x.data, true)] + [] == first;
    hide CloseAttrs;
  }

  lemma GrowFirst(c: Caller, x: AttrState, rest: seq<AttrState>, a: u16, data: seq<byte>)
    requires x.attrid != a && FindAttr(rest, a) < |rest|
    ensures Grow(c, [x] + rest, a, data) == [x] + Grow(c, rest, a, data)
  {
    assert ([x] + rest)[1..] == rest;
    var j := FindAttr(rest, a);
    assert FindAttr([x] + rest, a) == 1 + j && ([x] + rest)[1 + j] == rest[j];
    hide FindAttr;
    UpdateLater(x, rest, j, AttrState(a, AllData(c, rest, a, data)));
  }

  lemma UpdateLater(x: AttrState, rest: seq<AttrState>, j: nat, y: AttrState)
    requires j < |rest|
    ensures ([x] + rest)[1 + j := y] == [x] + rest[j := y]
  {}

  lemma {:induction false} ExceptGrown(c: Caller, f: u16, attrs: seq<AttrState>, a: u16, data: seq<byte>)
    ensures Except(CloseAttrs(c, f, Grow(c, attrs, a, data)), f, a) == Except(CloseAttrs(c, f, attrs), f, a)
    decreases |attrs|
  {
    var j := FindAttr(attrs, a);
    var y := AttrState(a, AllData(c, attrs, a, data));
    if j == |attrs| {
      hide Except, CloseAttrs;
      ExceptFirst(c, f, y, attrs, a);
      assert [] + Except(CloseAttrs(c, f, attrs), f, a) == Except(CloseAttrs(c, f, attrs), f, a);
    } else {
      var x, rest := attrs[0], attrs[1..];
      assert attrs == [x] + rest;
      ExceptFirst(c, f, x, rest, a);
      if x.attrid == a {
        assert attrs[0 := y] == [y] + rest;
        ExceptFirst(c, f, y, rest, a);
      } else {
        GrowFirst(c, x, rest, a, data);
        ExceptFirst(c, f, x, Grow(c, rest, a, data), a);
        ExceptGrown(c, f, rest, a, data);
      }
    }
  }

  lemma {:induction false} ExceptReset(c: Caller, files: seq<FileState>, i: nat, attrs: seq<AttrState>, f: u16, a: u16)
    requires i < |files| && files[i].filenum == f
    requires Except(CloseAttrs(c, f, attrs), f, a) == Except(CloseAttrs(c, f, files[i].attrs), f, a)
    ensures Except(CloseAll(c, SetAttrs(files, i, attrs)), f, a) == Except(CloseAll(c, files), f, a)
    decreases |files|
  {
    var files' := SetAttrs(files, i, attrs);
    hide Except, CloseAttrs;
    ExceptAppend(CloseFile(c, files[0], true), CloseAll(c, files[1..]), f, a);
    ExceptAppend(CloseFile(c, files'[0], true), CloseAll(c, files'[1..]), f, a);
    if i == 0 {
      assert files'[1..] == files[1..];
      var last := if files[0].ignore then [] else [Finished(f, true)];
      ExceptAppend(CloseAttrs(c, f, attrs), last, f, a);
      ExceptAppend(CloseAttrs(c, f, files[0].attrs), last, f, a);
    } else {
      assert files'[1..] == SetAttrs(files[1..], i - 1, attrs);
      ExceptReset(c, files[1..], i - 1, attrs, f, a);
    }
  }

  /** What two reads of the same bytes may differ in: how much of the data in which the input ends was
      handed over, and whether its end was told. */
  lemma CutDelivers(c: Caller, hs: seq<Handling>, b: seq<byte>, k: nat, x: Delivered)
    requires Terminated(hs) && Reports(c, hs, ReadAll(c, b), k, x)
    requires ReadAll(c, b).end.Ended? && ReadAll(c, b).end.stop.Partial?
    ensures var final, js := ReadAll(c, b), Join(x.events); var stop := final.end.stop; var f, a := stop.filenum, stop.attrid;
      && final.st.out <= js.out
      && Except(js.out[|final.st.out|..], f, a) == Except(CloseAll(c, final.st.files), f, a)
      && Given(js, |final.st.out|, f, a) == HeldBy(final.st, f, a) + PartOf(stop, k)
      && forall g: u16, d: u16 | (g, d) != (f, a) :: Pend(js, g, d) == []
  {
    var final, js := ReadAll(c, b), Join(x.events);
    var st, stop := final.st, final.end.stop;
    var f, a, part := stop.filenum, stop.attrid, PartOf(stop, k);
    CutWanted(c, b);
    CutData(c, hs, st, stop, k);
    var s := StopsAt(c, hs, st, stop, k);
    assert js.out[|st.out|..] == CloseAll(c, s.files);
    assert forall g: u16, d: u16 | (g, d) != (f, a) :: Pend(js, g, d) == [];
    assert Pend(js, f, a) == if NeverEnded(hs, st, stop, |part|) then part else [];
    hide HandlingOf, Tidy, ReadAll, CloseAll, Join, NoTwins, FindFile, FindAttr, Grow, Except, Loose;
    FirstInAll(c, s, f, a);
    if !NeverEnded(hs, st, stop, |part|) {
      ExceptGrown(c, f, st.files[FindFile(st.files, f)].attrs, a, part);
      ExceptReset(c, st.files, FindFile(st.files, f), Grow(c, st.files[FindFile(st.files, f)].attrs, a, part), f, a);
      assert HeldBy(st, f, a) + part + [] == HeldBy(st, f, a) + part;
    } else {
      assert [] + part == part;
    }
  }

  /** Two reads of the same bytes: they end alike and deliver the same, up to the data in which the
      input ends; there they differ at most in how much of it they hand over (one hands over a
      beginning of what the other does) and in whether its end is told. */
  ghost predicate ReadAlike(final: Final, x1: Delivered, x2: Delivered) {
    var js1, js2 := Join(x1.events), Join(x2.events);
    && x1.result == x2.result
    && if final.end.Ended? && final.end.stop.Partial? then
         var n, f, a := |final.st.out|, final.end.stop.filenum, final.end.stop.attrid;
         && final.st.out <= js1.out && final.st.out <= js2.out
         && Except(js1.out[n..], f, a) == Except(js2.out[n..], f, a)
         && (Given(js1, n, f, a) <= Given(js2, n, f, a) || Given(js2, n, f, a) <= Given(js1, n, f, a))
         && forall g: u16, d: u16 | (g, d) != (f, a) :: Pend(js1, g, d) == Pend(js2, g, d) == []
       else
         && js1.out == js2.out
         && (x1.result == Success ==> forall g: u16, d: u16 :: Pend(js1, g, d) == Pend(js2, g, d) == [])
  }

  /** Buffers, cuts and minimum sizes do not show: two reads of the same bytes for the same caller are
      the same up to the data in which the input ends. */
  lemma BufferingInvisible(c: Caller, b: seq<byte>, ignores: Ignores, hs1: seq<Handling>, cuts1: Cuts, hs2: seq<Handling>, cuts2: Cuts)
    requires Terminated(hs1) && Serves(c, hs1, ignores) && Terminated(hs2) && Serves(c, hs2, ignores) && Unconfused(c, b)
    ensures ReadAlike(ReadAll(c, b), ReadBytes(hs1, ignores, b, cuts1), ReadBytes(hs2, ignores, b, cuts2))
  {
    hide ReadItems, Reports, HandlingOf, Unconfused, ReadAll, ReadAlike;
    var k1 := ReadReports(hs1, ignores, c, b, cuts1);
    var k2 := ReadReports(hs2, ignores, c, b, cuts2);
    SameReports(c, b, hs1, k1, ReadBytes(hs1, ignores, b, cuts1), hs2, k2, ReadBytes(hs2, ignores, b, cuts2));
  }

  lemma SameReports(c: Caller, b: seq<byte>, hs1: seq<Handling>, k1: nat, x1: Delivered, hs2: seq<Handling>, k2: nat, x2: Delivered)
    requires Terminated(hs1) && Reports(c, hs1, ReadAll(c, b), k1, x1)
    requires Terminated(hs2) && Reports(c, hs2, ReadAll(c, b), k2, x2)
    ensures ReadAlike(ReadAll(c, b), x1, x2)
  {
    var final := ReadAll(c, b);
    if final.end.Ended? && final.end.stop.Partial? {
      CutDelivers(c, hs1, b, k1, x1);
      CutDelivers(c, hs2, b, k2, x2);
      hide *;
      SameCut(final, x1, k1, x2, k2);
    } else {
      hide HandlingOf, ReadAll, CloseAll, JoinOn, CloseFound, Except;
    }
  }

  lemma SameCut(final: Final, x1: Delivered, k1: nat, x2: Delivered, k2: nat)
    requires final.end.Ended? && final.end.stop.Partial? && x1.result == x2.result
    requires var js1, js2, n, stop := Join(x1.events), Join(x2.events), |final.st.out|, final.end.stop;
      && final.st.out <= js1.out && final.st.out <= js2.out
      && Except(js1.out[n..], stop.filenum, stop.attrid) == Except(js2.out[n..], stop.filenum, stop.attrid)
      && Given(js1, n, stop.filenum, stop.attrid) == HeldBy(final.st, stop.filenum, stop.attrid) + PartOf(stop, k1)
      && Given(js2, n, stop.filenum, stop.attrid) == HeldBy(final.st, stop.filenum, stop.attrid) + PartOf(stop, k2)
      && forall g: u16, d: u16 | (g, d) != (stop.filenum, stop.attrid) :: Pend(js1, g, d) == [] && Pend(js2, g, d) == []
    ensures ReadAlike(final, x1, x2)
  {
    hide JoinOn, Except, Given, HeldBy, Pend;
  }
}

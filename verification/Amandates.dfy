/** Keeping the file of last dump dates: it is read, updated, and rewritten in place. */
module Amandates {
  import opened Text
  import opened Quoting
  import opened EstimateRequests
  import opened AmandatesStore
  import opened AmandatesFile

  // ---------- rewriting without truncation ----------

  /** The file after its beginning has been written over. */
  function Overwrite(file: seq<byte>, text: seq<byte>): (r: seq<byte>)
    ensures |r| == if |text| < |file| then |file| else |text|
    ensures forall i | 0 <= i < |r| :: r[i] == if i < |text| then text[i] else file[i]
  {
    text + if |text| < |file| then file[|text|..] else []
  }

  /** Every date of the first table is in the second one, or a later one. */
  ghost predicate NoEarlier(a: seq<Entry>, b: seq<Entry>) {
    forall name: seq<byte>, l: nat | l < DUMP_LEVELS :: DateOf(a, name, l) <= DateOf(b, name, l)
  }

  lemma {:induction false} WriteAppend(x: seq<Record>, y: seq<Record>)
    ensures Write(x + y) == Write(x) + Write(y)
  {
    hide RecordText;
    if x == [] {
      assert x + y == y;
    } else {
      assert (x + y)[1..] == x[1..] + y;
      WriteAppend(x[1..], y);
    }
  }

  lemma {:induction false} LevelsGrow(d: Entry, e: Entry, level: nat)
    requires level <= DUMP_LEVELS && d.name == e.name && NotEarly(d)
    requires forall l | 0 <= l < DUMP_LEVELS :: d.dates[l] <= e.dates[l]
    ensures |Write(LevelRecords(d, level))| <= |Write(LevelRecords(e, level))|
    decreases DUMP_LEVELS - level
  {
    hide LevelRecords, RecordText;
    if level == DUMP_LEVELS {
      NoRecords(d, [], 0);
      NoRecords(e, [], 0);
    } else {
      LevelsGrow(d, e, level + 1);
      LevelFirst(d, level);
      LevelFirst(e, level);
      if d.dates[level] != EPOCH {
        LongerText(Record(d.name, level, d.dates[level]), Record(e.name, level, e.dates[level]));
        WriteFirst(Record(d.name, level, d.dates[level]), LevelRecords(d, level + 1));
        WriteFirst(Record(e.name, level, e.dates[level]), LevelRecords(e, level + 1));
      } else if e.dates[level] != EPOCH {
        WriteFirst(Record(e.name, level, e.dates[level]), LevelRecords(e, level + 1));
      }
    }
  }

  lemma LongerText(a: Record, b: Record)
    requires a.name == b.name && a.level == b.level && EPOCH <= a.date <= b.date
    ensures |RecordText(a)| <= |RecordText(b)|
  {
    DigitsGrow(a.date, b.date);
  }

  lemma WriteFirst(r: Record, records: seq<Record>)
    ensures |Write([r] + records)| == |RecordText(r)| + 1 + |Write(records)|
  {
    assert ([r] + records)[1..] == records;
  }

  lemma SerializeFirst(list: seq<Entry>)
    requires list != []
    ensures |Serialize(list)| == |Write(LevelRecords(list[0], 0))| + |Serialize(list[1..])|
  {
    WriteAppend(LevelRecords(list[0], 0), RecordsOf(list[1..]));
  }

  lemma {:induction false} UndatedLevels(e: Entry, level: nat)
    requires level <= DUMP_LEVELS && !Dated(e, level)
    ensures LevelRecords(e, level) == []
    decreases DUMP_LEVELS - level
  {
    if level < DUMP_LEVELS {
      UndatedLevels(e, level + 1);
    }
  }

  lemma Undated(e: Entry)
    requires !Dated(e, 0)
    ensures |Write(LevelRecords(e, 0))| == 0
  {
    UndatedLevels(e, 0);
  }

  lemma NoEarlierHas(a: seq<Entry>, b: seq<Entry>, e: Entry)
    requires Good(a) && Good(b) && NoEarlier(a, b) && a != [] && a[0] == e && Dated(e, 0)
    ensures Has(b, e.name)
  {
    FoundAt(a, 0);
    var l: nat :| l < DUMP_LEVELS && e.dates[l] != EPOCH;
    assert DateOf(a, e.name, l) == e.dates[l] > EPOCH;
    assert DateOf(b, e.name, l) > EPOCH;
  }

  lemma DropFirst(a: seq<Entry>, b: seq<Entry>)
    requires Good(a) && Good(b) && a != [] && NoEarlier(a, b)
    ensures NoEarlier(a[1..], b)
  {
    hide Place;
    forall name: seq<byte>, l: nat | l < DUMP_LEVELS ensures DateOf(a[1..], name, l) <= DateOf(b, name, l) {
      FirstOrLater(a, name);
      assert DateOf(a, name, l) <= DateOf(b, name, l);
      DateNotEarly(b, name, l);
    }
  }

  lemma DateNotEarly(a: seq<Entry>, name: seq<byte>, l: nat)
    requires Good(a) && l < DUMP_LEVELS
    ensures DateOf(a, name, l) >= EPOCH
  {}

  lemma DropSmaller(a: seq<Entry>, b: seq<Entry>)
    requires Good(a) && Good(b) && a != [] && b != [] && Less(b[0].name, a[0].name) && NoEarlier(a, b)
    ensures NoEarlier(a, b[1..])
  {
    hide Place, Less;
    forall name: seq<byte>, l: nat | l < DUMP_LEVELS ensures DateOf(a, name, l) <= DateOf(b[1..], name, l) {
      FirstOrLater(b, name);
      assert DateOf(a, name, l) <= DateOf(b, name, l);
      if name == b[0].name {
        NotBefore(a, name);
      }
    }
  }

  lemma DropBoth(a: seq<Entry>, b: seq<Entry>)
    requires Good(a) && Good(b) && a != [] && b != [] && b[0].name == a[0].name && NoEarlier(a, b)
    ensures NoEarlier(a[1..], b[1..])
    ensures forall l | 0 <= l < DUMP_LEVELS :: a[0].dates[l] <= b[0].dates[l]
  {
    hide Place, Less;
    forall name: seq<byte>, l: nat | l < DUMP_LEVELS ensures DateOf(a[1..], name, l) <= DateOf(b[1..], name, l) {
      FirstOrLater(a, name);
      FirstOrLater(b, name);
      assert DateOf(a, name, l) <= DateOf(b, name, l);
    }
    forall l: nat | l < DUMP_LEVELS ensures a[0].dates[l] <= b[0].dates[l] {
      FirstOrLater(a, a[0].name);
      FirstOrLater(b, a[0].name);
      assert DateOf(a, a[0].name, l) <= DateOf(b, a[0].name, l);
    }
  }

  /** The file never gets shorter when dates only grow. */
  lemma {:induction false} SerializeGrows(a: seq<Entry>, b: seq<Entry>)
    requires Good(a) && Good(b) && NoEarlier(a, b)
    ensures |Serialize(a)| <= |Serialize(b)|
    decreases |a| + |b|
  {
    hide NoEarlier, Less, LevelRecords, Dated, Serialize, Place;
    if a == [] {
      assert Serialize(a) == [] by { NothingWritten(); }
    } else if !Dated(a[0], 0) {
      DropFirst(a, b);
      SerializeFirst(a);
      Undated(a[0]);
      SerializeGrows(a[1..], b);
    } else {
      NoEarlierHas(a, b, a[0]);
      LessIsStrict(b[0].name, a[0].name);
      SerializeFirst(b);
      if Less(b[0].name, a[0].name) {
        DropSmaller(a, b);
        SerializeGrows(a, b[1..]);
      } else {
        HasFirst(b, a[0].name);
        DropBoth(a, b);
        SerializeFirst(a);
        LevelsGrow(a[0], b[0], 0);
        SerializeGrows(a[1..], b[1..]);
      }
    }
  }

  lemma NothingWritten()
    ensures Serialize([]) == []
  {}

  /** A name that is there and not after the first is the first. */
  lemma HasFirst(b: seq<Entry>, name: seq<byte>)
    requires Sorted(b) && Has(b, name) && !Less(b[0].name, name)
    ensures b[0].name == name
  {
    PlaceIs(b, name, 0);
  }

  // ---------- a session ----------

  function EnterMore(dd: Dumpdates, list: seq<Entry>, updates: seq<Record>): (r: seq<Entry>)
    requires Good(list)
    ensures Good(r)
    decreases |updates|
  {
    if updates == [] then list
    else
      EnterGood(dd, list, updates[0]);
      EnterMore(dd, Enter(dd, list, updates[0]), updates[1..])
  }

  predicate Imports(dd: Dumpdates, list: seq<Entry>, name: seq<byte>) {
    !Has(list, name) && Dated(NewEntry(dd, name), 0)
  }

  predicate Accepts(dd: Dumpdates, list: seq<Entry>, r: Record) {
    0 <= r.level < DUMP_LEVELS && r.date >= Known(dd, list, r.name, r.level)
  }

  /** Whether an update, or what was imported for its name, is a reason to write the file. */
  predicate Changes(dd: Dumpdates, list: seq<Entry>, r: Record) {
    Imports(dd, list, r.name) || Accepts(dd, list, r)
  }

  predicate ChangesAny(dd: Dumpdates, list: seq<Entry>, updates: seq<Record>)
    requires Good(list)
    decreases |updates|
  {
    updates != [] && (EnterGood(dd, list, updates[0]);
      Changes(dd, list, updates[0]) || ChangesAny(dd, Enter(dd, list, updates[0]), updates[1..]))
  }

  lemma {:induction false} MoreUpdates(dd: Dumpdates, list: seq<Entry>, updates: seq<Record>, k: nat)
    requires Good(list) && k < |updates| && Good(Enter(dd, list, updates[0]))
    ensures EnterMore(dd, list, updates[..k + 1]) == EnterMore(dd, Enter(dd, list, updates[0]), updates[1..][..k])
  {
    assert updates[..k + 1][1..] == updates[1..][..k];
    hide Enter;
  }

  /** The update is accepted, or its name is new and dump has recorded something for it. */
  predicate Counts(dd: Dumpdates, list: seq<Entry>, r: Record) {
    || (0 <= r.level < 400 && r.date >= if Has(list, r.name) then DateOf(list, r.name, r.level) else Imported(dd(r.name), r.level))
    || (!Has(list, r.name) && exists l | 0 <= l < 400 :: Imported(dd(r.name), l) > 0)
  }

  lemma CountsIfChanges(dd: Dumpdates, list: seq<Entry>, r: Record)
    ensures Changes(dd, list, r) <==> Counts(dd, list, r)
  {
    var e := NewEntry(dd, r.name);
    assert forall l | 0 <= l < DUMP_LEVELS :: e.dates[l] == Imported(dd(r.name), l) >= EPOCH;
    if Dated(e, 0) {
      var l :| 0 <= l < DUMP_LEVELS && e.dates[l] != EPOCH;
      assert Imported(dd(r.name), l) > 0;
    }
    if l :| 0 <= l < 400 && Imported(dd(r.name), l) > 0 {
      assert e.dates[l] != EPOCH;
    }
    hide Has, DateOf, Imported;
  }

  /** The update counts when it comes. */
  predicate CountsAt(dd: Dumpdates, list: seq<Entry>, updates: seq<Record>, k: nat)
    requires Good(list) && k < |updates|
  {
    Counts(dd, EnterMore(dd, list, updates[..k]), updates[k])
  }

  lemma CountsLater(dd: Dumpdates, list: seq<Entry>, updates: seq<Record>, k: nat)
    requires Good(list) && k + 1 < |updates| && Good(Enter(dd, list, updates[0]))
    ensures CountsAt(dd, list, updates, k + 1) <==> CountsAt(dd, Enter(dd, list, updates[0]), updates[1..], k)
  {
    MoreUpdates(dd, list, updates, k);
    hide Enter, Counts, EnterMore;
  }

  /** The file is written at the end of a session exactly if one of its updates counted. */
  lemma {:induction false} ChangesExactly(dd: Dumpdates, list: seq<Entry>, updates: seq<Record>)
    requires Good(list)
    ensures ChangesAny(dd, list, updates) <==> exists k: nat | k < |updates| :: CountsAt(dd, list, updates, k)
    decreases |updates|
  {
    if updates != [] {
      EnterGood(dd, list, updates[0]);
      var list1, rest := Enter(dd, list, updates[0]), updates[1..];
      CountsIfChanges(dd, list, updates[0]);
      assert updates[..0] == [];
      assert CountsAt(dd, list, updates, 0) <==> Changes(dd, list, updates[0]);
      hide Enter, Changes, CountsAt, Sorted, NoneEarly;
      ChangesExactly(dd, list1, rest);
      if k: nat :| k < |rest| && CountsAt(dd, list1, rest, k) {
        CountsLater(dd, list, updates, k);
        assert CountsAt(dd, list, updates, k + 1);
      }
      if k: nat :| k < |updates| && CountsAt(dd, list, updates, k) && k > 0 {
        CountsLater(dd, list, updates, k - 1);
      }
    }
  }

  /** The file after a session with these updates. */
  function FileAfter(dd: Dumpdates, file: seq<byte>, updates: seq<Record>): seq<byte> {
    var list := Load(dd, file);
    if ChangesAny(dd, list, updates) then Overwrite(file, Serialize(EnterMore(dd, list, updates))) else file
  }

  lemma EnterNoEarlier(dd: Dumpdates, list: seq<Entry>, r: Record)
    requires Good(list)
    ensures Good(Enter(dd, list, r)) && NoEarlier(list, Enter(dd, list, r))
  {
    EnterGood(dd, list, r);
    forall name: seq<byte>, l: nat | l < DUMP_LEVELS ensures DateOf(list, name, l) <= DateOf(Enter(dd, list, r), name, l) {
      EnterDates(dd, list, r, name, l);
    }
  }

  lemma NoEarlierTransitive(a: seq<Entry>, b: seq<Entry>, c: seq<Entry>)
    requires NoEarlier(a, b) && NoEarlier(b, c)
    ensures NoEarlier(a, c)
  {
    forall name: seq<byte>, l: nat | l < DUMP_LEVELS ensures DateOf(a, name, l) <= DateOf(c, name, l) {
      assert DateOf(a, name, l) <= DateOf(b, name, l) <= DateOf(c, name, l);
    }
  }

  lemma {:induction false} EnterMoreNoEarlier(dd: Dumpdates, list: seq<Entry>, updates: seq<Record>)
    requires Good(list)
    ensures NoEarlier(list, EnterMore(dd, list, updates))
    decreases |updates|
  {
    hide Enter;
    if updates != [] {
      EnterNoEarlier(dd, list, updates[0]);
      EnterMoreNoEarlier(dd, Enter(dd, list, updates[0]), updates[1..]);
      NoEarlierTransitive(list, Enter(dd, list, updates[0]), EnterMore(dd, list, updates));
    }
  }

  lemma LoadNoEarlier(dd: Dumpdates, saved: seq<Entry>)
    requires Good(saved)
    ensures NoEarlier(saved, Load(dd, Serialize(saved)))
  {
    hide Load, Serialize, Place, Imported;
    forall name: seq<byte>, l: nat | l < DUMP_LEVELS
      ensures DateOf(saved, name, l) <= DateOf(Load(dd, Serialize(saved)), name, l)
    {
      LoadedDates(dd, saved, name, l);
    }
  }

  /** A session on a saved table leaves a saved table: the new one if there was a reason to write,
      with nothing of the old text behind it, and no date earlier than before. */
  lemma SessionSaves(dd: Dumpdates, saved: seq<Entry>, updates: seq<Record>) returns (saved': seq<Entry>)
    requires Good(saved)
    ensures Good(saved') && FileAfter(dd, Serialize(saved), updates) == Serialize(saved')
    ensures NoEarlier(saved, saved')
    ensures var loaded := Load(dd, Serialize(saved));
      saved' == if ChangesAny(dd, loaded, updates) then EnterMore(dd, loaded, updates) else saved
  {
    hide NoEarlier, Serialize, Load, EnterMore, ChangesAny, Overwrite, Sorted, NoneEarly;
    var loaded := Load(dd, Serialize(saved));
    var list := EnterMore(dd, loaded, updates);
    LoadNoEarlier(dd, saved);
    EnterMoreNoEarlier(dd, loaded, updates);
    NoEarlierTransitive(saved, loaded, list);
    SerializeGrows(saved, list);
    OverwriteLonger(Serialize(saved), Serialize(list));
    Same(saved);
    saved' := if ChangesAny(dd, loaded, updates) then list else saved;
  }

  /** Nothing of a text is left when it is written over with one that is not shorter. */
  lemma OverwriteLonger(file: seq<byte>, text: seq<byte>)
    requires |file| <= |text|
    ensures Overwrite(file, text) == text
  {}

  /** The dates that dump recorded are in the table, for the names that it has. */
  ghost predicate HoldsImports(dd: Dumpdates, list: seq<Entry>) {
    forall n: seq<byte>, k: nat | k < DUMP_LEVELS && Has(list, n) :: Imported(dd(n), k) <= DateOf(list, n, k)
  }

  ghost predicate SameDates(a: seq<Entry>, b: seq<Entry>) {
    forall name: seq<byte>, l: nat | l < DUMP_LEVELS :: DateOf(a, name, l) == DateOf(b, name, l)
  }

  lemma LoadHoldsImports(dd: Dumpdates, file: seq<byte>)
    ensures HoldsImports(dd, Load(dd, file))
  {
    var records := ParseAll(Lines(file));
    forall n: seq<byte>, k: nat | k < DUMP_LEVELS && Has(EnterAll(dd, records), n)
      ensures Imported(dd(n), k) <= DateOf(EnterAll(dd, records), n, k)
    {
      DatesAreLatest(dd, records, n, k);
    }
  }

  lemma EnterHoldsImports(dd: Dumpdates, list: seq<Entry>, r: Record)
    requires Good(list) && HoldsImports(dd, list)
    ensures HoldsImports(dd, Enter(dd, list, r))
  {
    forall n: seq<byte>, k: nat | k < DUMP_LEVELS && Has(Enter(dd, list, r), n)
      ensures Imported(dd(n), k) <= DateOf(Enter(dd, list, r), n, k)
    {
      EnterDates(dd, list, r, n, k);
    }
  }

  lemma {:induction false} EnterMoreHoldsImports(dd: Dumpdates, list: seq<Entry>, updates: seq<Record>)
    requires Good(list) && HoldsImports(dd, list)
    ensures HoldsImports(dd, EnterMore(dd, list, updates))
    decreases |updates|
  {
    hide Enter, HoldsImports;
    if updates != [] {
      EnterGood(dd, list, updates[0]);
      EnterHoldsImports(dd, list, updates[0]);
      EnterMoreHoldsImports(dd, Enter(dd, list, updates[0]), updates[1..]);
    }
  }

  /** An update that is no reason to write the file changes no date. */
  lemma UnchangedDates(dd: Dumpdates, list: seq<Entry>, r: Record)
    requires Good(list) && !Changes(dd, list, r)
    ensures SameDates(list, Enter(dd, list, r))
  {
    forall n: seq<byte>, l: nat | l < DUMP_LEVELS ensures DateOf(list, n, l) == DateOf(Enter(dd, list, r), n, l) {
      EnterDates(dd, list, r, n, l);
      assert !Has(list, r.name) ==> NewEntry(dd, r.name).dates[l] == EPOCH;
    }
  }

  lemma {:induction false} UnchangedSession(dd: Dumpdates, list: seq<Entry>, updates: seq<Record>)
    requires Good(list) && !ChangesAny(dd, list, updates)
    ensures SameDates(list, EnterMore(dd, list, updates))
    decreases |updates|
  {
    hide Enter, Changes, DateOf;
    if updates != [] {
      EnterGood(dd, list, updates[0]);
      UnchangedDates(dd, list, updates[0]);
      UnchangedSession(dd, Enter(dd, list, updates[0]), updates[1..]);
    }
  }

  /** Loading the file that a session left, with the same dump records, gives exactly the dates that
      were in memory when the session ended. */
  lemma ReloadedSession(dd: Dumpdates, saved: seq<Entry>, updates: seq<Record>)
    requires Good(saved)
    ensures var file := FileAfter(dd, Serialize(saved), updates);
      SameDates(Load(dd, file), EnterMore(dd, Load(dd, Serialize(saved)), updates))
  {
    var loaded := Load(dd, Serialize(saved));
    var list := EnterMore(dd, loaded, updates);
    var saved' := SessionSaves(dd, saved, updates);
    LoadHoldsImports(dd, Serialize(saved));
    EnterMoreHoldsImports(dd, loaded, updates);
    hide Serialize, EnterMore, ChangesAny, Sorted, NoneEarly;
    if ChangesAny(dd, loaded, updates) {
      SavedReloads(dd, list);
    } else {
      UnchangedSession(dd, loaded, updates);
    }
  }

  lemma SavedReloads(dd: Dumpdates, list: seq<Entry>)
    requires Good(list) && HoldsImports(dd, list)
    ensures SameDates(Load(dd, Serialize(list)), list)
  {
    hide Serialize, Load, DateOf, Has;
    forall name: seq<byte>, l: nat | l < DUMP_LEVELS
      ensures DateOf(Load(dd, Serialize(list)), name, l) == DateOf(list, name, l)
    {
      LoadInvertsSave(dd, list, name, l);
    }
  }

  lemma Same(a: seq<Entry>)
    ensures NoEarlier(a, a)
  {}

  datatype Session = Session(dumpdates: Dumpdates, updates: seq<Record>)

  function FileAfterAll(sessions: seq<Session>): seq<byte> {
    if sessions == [] then []
    else
      var last := sessions[|sessions| - 1];
      FileAfter(last.dumpdates, FileAfterAll(sessions[..|sessions| - 1]), last.updates)
  }

  lemma LastSession(sessions: seq<Session>)
    requires sessions != []
    ensures var last := sessions[|sessions| - 1];
      FileAfterAll(sessions) == FileAfter(last.dumpdates, FileAfterAll(sessions[..|sessions| - 1]), last.updates)
  {}

  lemma {:induction false} SavedAfterAll(sessions: seq<Session>) returns (saved: seq<Entry>)
    ensures Good(saved) && FileAfterAll(sessions) == Serialize(saved)
  {
    hide NoEarlier, Serialize, FileAfter, Sorted, NoneEarly;
    if sessions == [] {
      saved := [];
      assert Good(saved) by { NothingGood(); }
      NothingWritten();
    } else {
      var last := sessions[|sessions| - 1];
      var before := SavedAfterAll(sessions[..|sessions| - 1]);
      LastSession(sessions);
      saved := SessionSaves(last.dumpdates, before, last.updates);
    }
  }

  lemma NothingGood()
    ensures Good([])
  {}

  /** After any sessions, on a file that was empty at first, it holds exactly one saved table, which
      has for every name and level a date no earlier than after fewer of the sessions. */
  lemma {:induction false} FileAlwaysSaved(sessions: seq<Session>, k: nat) returns (earlier: seq<Entry>, saved: seq<Entry>)
    requires k <= |sessions|
    ensures Good(earlier) && FileAfterAll(sessions[..k]) == Serialize(earlier)
    ensures Good(saved) && FileAfterAll(sessions) == Serialize(saved)
    ensures NoEarlier(earlier, saved)
  {
    hide NoEarlier, Serialize, FileAfter, FileAfterAll, Sorted, NoneEarly;
    if k == |sessions| {
      assert sessions[..k] == sessions;
      saved := SavedAfterAll(sessions);
      earlier := saved;
      Same(saved);
    } else {
      var last := sessions[|sessions| - 1];
      var before: seq<Entry>;
      earlier, before := FileAlwaysSaved(sessions[..|sessions| - 1], k);
      assert sessions[..|sessions| - 1][..k] == sessions[..k];
      LastSession(sessions);
      saved := SessionSaves(last.dumpdates, before, last.updates);
      NoEarlierTransitive(earlier, before, saved);
    }
  }

  // ---------- the module's state ----------

  class Store {
    var file: seq<byte>
    const dumpdates: Dumpdates
    var list: seq<Entry>
    var updated: bool
    var readonly: bool

    constructor (file: seq<byte>, dumpdates: Dumpdates)
      ensures this.file == file && this.dumpdates == dumpdates && list == []
    {
      this.file, this.dumpdates, list, updated, readonly := file, dumpdates, [], false, true;
    }

    /** Finds an entry, or makes one with the dates that dump recorded. */
    method LookupEntry(name: seq<byte>) returns (i: nat)
      requires Good(list)
      modifies this`list, this`updated
      ensures list == Lookup(dumpdates, old(list), name)
      ensures i == Place(list, name) && Good(list) && Has(list, name)
      ensures updated == (old(updated) || (!readonly && Imports(dumpdates, old(list), name)))
    {
      LookupFinds(dumpdates, list, name);
      i := 0;
      while i < |list| && Less(list[i].name, name)
        invariant i <= |list| && forall k | 0 <= k < i :: Less(list[k].name, name)
      {
        i := i + 1;
      }
      PlaceIs(list, name, i);
      if !(i < |list| && list[i].name == name) {
        var dates, raised := ImportDumpdates(name);
        assert dates == NewEntry(dumpdates, name).dates;
        list := list[..i] + [Entry(name, dates)] + list[i..];
        if raised && !readonly { updated := true; }
      }
    }

    /** The dates that dump recorded, each raising what came before. */
    method ImportDumpdates(name: seq<byte>) returns (dates: Dates, raised: bool)
      ensures forall l | 0 <= l < DUMP_LEVELS :: dates[l] == Imported(dumpdates(name), l)
      ensures raised <==> Dated(NewEntry(dumpdates, name), 0)
    {
      var dumps := dumpdates(name);
      dates := seq(DUMP_LEVELS, _ => EPOCH);
      raised := false;
      for i := 0 to |dumps|
        invariant forall l | 0 <= l < DUMP_LEVELS :: dates[l] == Imported(dumps[..i], l)
        invariant raised <==> exists l | 0 <= l < DUMP_LEVELS :: dates[l] != EPOCH
      {
        var level, date := dumps[i].level, dumps[i].date;
        assert dumps[..i + 1][..i] == dumps[..i];
        if 0 <= level < DUMP_LEVELS && date != -1 && date > dates[level] {
          raised := true;
          dates := dates[level := date];
          assert dates[level] != EPOCH;
        }
      }
      assert dumps[..|dumps|] == dumps;
      assert forall l | 0 <= l < DUMP_LEVELS :: NewEntry(dumpdates, name).dates[l] == dates[l];
    }

    /** Records a date, unless the level is bad or the date earlier than the known one. */
    method EnterRecord(r: Record) returns (accepted: bool)
      requires Good(list)
      modifies this`list, this`updated
      ensures list == Enter(dumpdates, old(list), r) && Good(list)
      ensures accepted <==> Accepts(dumpdates, old(list), r)
      ensures updated == (old(updated) || (!readonly && Imports(dumpdates, old(list), r.name)))
    {
      EnterGood(dumpdates, list, r);
      if 0 <= r.level < DUMP_LEVELS {
        LookupDates(dumpdates, list, r.name, r.name, r.level);
      }
      var i := LookupEntry(r.name);
      if !(0 <= r.level < DUMP_LEVELS) || r.date < list[i].dates[r.level] { return false; }
      list := list[i := Entry(r.name, list[i].dates[r.level := r.date])];
      accepted := true;
    }

    method UpdateOne(r: Record)
      requires Good(list) && !readonly
      modifies this`list, this`updated
      ensures list == Enter(dumpdates, old(list), r) && Good(list)
      ensures updated == (old(updated) || Changes(dumpdates, old(list), r))
    {
      var accepted := EnterRecord(r);
      if accepted { updated := true; }
    }

    /** Reads the file. */
    method Start(readWrite: bool)
      modifies this`list, this`updated, this`readonly
      ensures list == Load(dumpdates, file) && Good(list) && !updated && readonly == !readWrite
    {
      hide Enter, Lines, ParseLine;
      list, updated, readonly := [], false, !readWrite;
      var lines := Lines(file);
      ghost var done: seq<Record> := [];
      for i := 0 to |lines|
        invariant Good(list) && readonly == !readWrite
        invariant done == ParseAll(lines[..i]) && list == EnterAll(dumpdates, done)
      {
        ParseNext(lines, i);
        EnterLine(lines[i]);
        if ParseLine(lines[i]).Some? {
          OneMore(dumpdates, done, ParseLine(lines[i]).value);
          done := done + [ParseLine(lines[i]).value];
        }
      }
      assert lines[..|lines|] == lines;
      updated := false;
    }

    method EnterLine(line: seq<byte>)
      requires Good(list)
      modifies this`list, this`updated
      ensures Good(list)
      ensures match ParseLine(line) case None => list == old(list) case Some(r) => list == Enter(dumpdates, old(list), r)
    {
      hide ParseLine, Enter;
      match ParseLine(line)
      case None =>
      case Some(r) =>
        var _ := EnterRecord(r);
    }

    /** Writes the table over the file, if there is a reason to. */
    method Finish()
      requires Good(list) && (updated ==> !readonly)
      modifies this`file
      ensures file == if updated then Overwrite(old(file), Serialize(list)) else old(file)
    {
      if updated {
        var text := WriteAll();
        file := text + if |text| < |file| then file[|text|..] else [];
      }
    }

    method WriteAll() returns (text: seq<byte>)
      requires Good(list)
      ensures text == Serialize(list)
    {
      hide Serialize, LevelRecords;
      text := [];
      assert list[0..] == list && [] + Serialize(list) == Serialize(list);
      for i := 0 to |list|
        invariant text + Serialize(list[i..]) == Serialize(list)
      {
        SerializeNext(list, i);
        var lines := WriteLevels(list[i]);
        Assoc(text, lines, Serialize(list[i + 1..]));
        text := text + lines;
      }
      NothingWritten();
      assert list[|list|..] == [];
      assert text + [] == text;
    }

    static method WriteLevels(e: Entry) returns (text: seq<byte>)
      ensures text == Write(LevelRecords(e, 0))
    {
      hide Write, LevelRecords, RecordText;
      text := [];
      assert [] + Write(LevelRecords(e, 0)) == Write(LevelRecords(e, 0));
      for level := 0 to DUMP_LEVELS
        invariant text + Write(LevelRecords(e, level)) == Write(LevelRecords(e, 0))
      {
        LevelText(e, level);
        if e.dates[level] != EPOCH {
          var line := RecordText(Record(e.name, level, e.dates[level])) + [NEWLINE];
          Assoc(text, line, Write(LevelRecords(e, level + 1)));
          text := text + line;
        }
      }
      NoText(e);
      assert text + [] == text;
    }
  }

  lemma NoText(e: Entry)
    ensures Write(LevelRecords(e, DUMP_LEVELS)) == []
  {
    NoRecords(e, [], 0);
  }

  lemma LevelText(e: Entry, level: nat)
    requires level < DUMP_LEVELS
    ensures Write(LevelRecords(e, level)) ==
      if e.dates[level] == EPOCH then Write(LevelRecords(e, level + 1))
      else RecordText(Record(e.name, level, e.dates[level])) + [NEWLINE] + Write(LevelRecords(e, level + 1))
  {
    hide LevelRecords, RecordText;
    LevelFirst(e, level);
    if e.dates[level] != EPOCH {
      var r := Record(e.name, level, e.dates[level]);
      assert ([r] + LevelRecords(e, level + 1))[1..] == LevelRecords(e, level + 1);
    }
  }

  lemma SerializeNext(list: seq<Entry>, i: nat)
    requires i < |list|
    ensures Serialize(list[i..]) == Write(LevelRecords(list[i], 0)) + Serialize(list[i + 1..])
  {
    hide LevelRecords;
    assert list[i..][0] == list[i] && list[i..][1..] == list[i + 1..];
    WriteAppend(LevelRecords(list[i], 0), RecordsOf(list[i + 1..]));
  }

  lemma OneMore(dd: Dumpdates, records: seq<Record>, r: Record)
    ensures EnterAll(dd, records + [r]) == Enter(dd, EnterAll(dd, records), r)
  {
    assert (records + [r])[..|records|] == records;
  }

  lemma ParseNext(lines: seq<seq<byte>>, i: nat)
    requires i < |lines|
    ensures ParseAll(lines[..i + 1]) == ParseAll(lines[..i]) + Parsed(lines[i])
  {
    assert lines[..i + 1] == lines[..i] + [lines[i]];
    ParseAppend(lines[..i], lines[i]);
  }

  function Parsed(line: seq<byte>): seq<Record> {
    match ParseLine(line) case None => [] case Some(r) => [r]
  }

  lemma ParseFirst(line: seq<byte>, rest: seq<seq<byte>>)
    ensures ParseAll([line] + rest) == Parsed(line) + ParseAll(rest)
  {
    hide ParseLine;
    assert ([line] + rest)[1..] == rest;
  }

  lemma {:induction false} ParseAppend(lines: seq<seq<byte>>, line: seq<byte>)
    ensures ParseAll(lines + [line]) == ParseAll(lines) + Parsed(line)
  {
    hide Parsed, ParseAll;
    if lines == [] {
      assert lines + [line] == [line] + [];
      ParseFirst(line, []);
      NothingParsed();
      assert Parsed(line) + [] == Parsed(line) == [] + Parsed(line);
    } else {
      var first, rest := lines[0], lines[1..];
      assert lines == [first] + rest && lines + [line] == [first] + (rest + [line]);
      ParseFirst(first, rest);
      ParseFirst(first, rest + [line]);
      ParseAppend(rest, line);
      assert Parsed(first) + (ParseAll(rest) + Parsed(line)) == Parsed(first) + ParseAll(rest) + Parsed(line);
    }
  }

  lemma NothingParsed()
    ensures ParseAll([]) == []
  {}
}

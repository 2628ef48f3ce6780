/** The table of last dump dates: what it means, and how it is kept in a file. */
module AmandatesStore {
  import opened Text
  import opened Quoting
  import opened EstimateRequests

  // ---------- the table ----------

  /** The order of strcmp. */
  predicate Less(a: seq<byte>, b: seq<byte>) {
    b != [] && (a == [] || a[0] < b[0] || (a[0] == b[0] && Less(a[1..], b[1..])))
  }

  lemma {:induction false} LessIsStrict(a: seq<byte>, b: seq<byte>)
    ensures Less(a, b) ==> a != b && !Less(b, a)
    ensures a != b ==> Less(a, b) || Less(b, a)
  {
    if a != [] && b != [] && a[0] == b[0] {
      LessIsStrict(a[1..], b[1..]);
      assert a == [a[0]] + a[1..] && b == [b[0]] + b[1..];
    }
  }

  lemma {:induction false} LessIsTransitive(a: seq<byte>, b: seq<byte>, c: seq<byte>)
    requires Less(a, b) && Less(b, c)
    ensures Less(a, c)
  {
    if a != [] && a[0] == b[0] == c[0] {
      LessIsTransitive(a[1..], b[1..], c[1..]);
    }
  }

  /** The two agree up to some place, where the first ends before the second or has the smaller byte. */
  predicate LessAt(a: seq<byte>, b: seq<byte>, k: nat) {
    k <= |a| && k < |b| && (forall i | 0 <= i < k :: a[i] == b[i]) && (k == |a| || a[k] < b[k])
  }

  lemma {:induction false} LessExactly(a: seq<byte>, b: seq<byte>)
    ensures Less(a, b) <==> exists k: nat :: LessAt(a, b, k)
  {
    if b != [] {
      if a == [] || a[0] < b[0] {
        assert LessAt(a, b, 0);
      } else if a[0] == b[0] {
        LessExactly(a[1..], b[1..]);
        if k: nat :| LessAt(a[1..], b[1..], k) {
          forall i | 0 <= i < k + 1 ensures a[i] == b[i] {
            if i > 0 { assert a[1..][i - 1] == b[1..][i - 1]; }
          }
          assert LessAt(a, b, k + 1);
        }
        if k: nat :| LessAt(a, b, k) {
          assert LessAt(a[1..], b[1..], k - 1);
        }
      }
    }
  }

  type Dates = d: seq<int> | |d| == DUMP_LEVELS witness seq(DUMP_LEVELS, _ => 0)

  datatype Entry = Entry(name: seq<byte>, dates: Dates)
  datatype Record = Record(name: seq<byte>, level: int, date: int)

  predicate Sorted(list: seq<Entry>) {
    forall i, k | 0 <= i < k < |list| :: Less(list[i].name, list[k].name)
  }

  predicate NoneEarly(list: seq<Entry>) {
    forall i, l | 0 <= i < |list| && 0 <= l < DUMP_LEVELS :: list[i].dates[l] >= EPOCH
  }

  predicate Good(list: seq<Entry>) { Sorted(list) && NoneEarly(list) }

  /** The first entry that does not come before the name. */
  function Place(list: seq<Entry>, name: seq<byte>): (i: nat)
    ensures i <= |list|
    ensures forall k | 0 <= k < i :: Less(list[k].name, name)
    ensures i < |list| ==> !Less(list[i].name, name)
  {
    if list == [] || !Less(list[0].name, name) then 0 else 1 + Place(list[1..], name)
  }

  predicate Has(list: seq<Entry>, name: seq<byte>) {
    Place(list, name) < |list| && list[Place(list, name)].name == name
  }

  function DateOf(list: seq<Entry>, name: seq<byte>, level: nat): int
    requires level < DUMP_LEVELS
  {
    if Has(list, name) then list[Place(list, name)].dates[level] else EPOCH
  }

  lemma PlaceIs(list: seq<Entry>, name: seq<byte>, i: nat)
    requires i <= |list| && (forall k | 0 <= k < i :: Less(list[k].name, name))
    requires i < |list| ==> !Less(list[i].name, name)
    ensures Place(list, name) == i
  {}

  /** In a sorted list a name is where it is found. */
  lemma FoundAt(list: seq<Entry>, i: nat)
    requires Sorted(list) && i < |list|
    ensures Has(list, list[i].name) && Place(list, list[i].name) == i
  {
    LessIsStrict(list[i].name, list[i].name);
    PlaceIs(list, list[i].name, i);
  }

  lemma NotBefore(list: seq<Entry>, name: seq<byte>)
    requires Sorted(list) && list != [] && (Less(name, list[0].name))
    ensures !Has(list, name)
  {
    LessIsStrict(name, list[0].name);
    PlaceIs(list, name, 0);
  }

  // ---------- what dump itself recorded ----------

  datatype DumpDate = DumpDate(level: int, date: int)

  /** The latest date that the system's own dump records have for a level, or the epoch. */
  function Imported(dumps: seq<DumpDate>, level: nat): (date: int)
    ensures date >= EPOCH
  {
    if dumps == [] then EPOCH
    else
      var before, last := Imported(dumps[..|dumps| - 1], level), dumps[|dumps| - 1];
      if last.level == level && last.date != -1 && last.date > before then last.date else before
  }

  predicate DumpedAt(d: DumpDate, level: nat) { d.level == level && d.date != -1 }

  /** It is no earlier than any date recorded for the level, and one of them if it is not the epoch. */
  lemma {:induction false} ImportedIsLatest(dumps: seq<DumpDate>, level: nat)
    ensures forall k | 0 <= k < |dumps| && DumpedAt(dumps[k], level) :: dumps[k].date <= Imported(dumps, level)
    ensures Imported(dumps, level) == EPOCH
      || exists k | 0 <= k < |dumps| :: DumpedAt(dumps[k], level) && dumps[k].date == Imported(dumps, level)
  {
    if dumps != [] {
      ImportedIsLatest(dumps[..|dumps| - 1], level);
    }
  }

  type Dumpdates = seq<byte> -> seq<DumpDate>

  function NewEntry(dd: Dumpdates, name: seq<byte>): Entry {
    Entry(name, seq(DUMP_LEVELS, l requires 0 <= l < DUMP_LEVELS => Imported(dd(name), l)))
  }

  // ---------- operations ----------

  /** Looking a name up adds it if it is missing, where the order wants it. */
  function Lookup(dd: Dumpdates, list: seq<Entry>, name: seq<byte>): seq<Entry> {
    if Has(list, name) then list
    else
      var i := Place(list, name);
      list[..i] + [NewEntry(dd, name)] + list[i..]
  }

  lemma Inserted(list: seq<Entry>, e: Entry)
    requires Sorted(list) && !Has(list, e.name)
    ensures var i := Place(list, e.name); var list' := list[..i] + [e] + list[i..];
      && Sorted(list') && |list'| == |list| + 1
      && forall k | 0 <= k < |list'| :: list'[k] == if k < i then list[k] else if k == i then e else list[k - 1]
  {
    var i := Place(list, e.name);
    forall k | i <= k < |list| ensures Less(e.name, list[k].name) {
      LessIsStrict(e.name, list[i].name);
      if k > i {
        LessIsTransitive(e.name, list[i].name, list[k].name);
      }
    }
    hide Less, Has;
  }

  lemma LookupFinds(dd: Dumpdates, list: seq<Entry>, name: seq<byte>)
    requires Good(list)
    ensures Good(Lookup(dd, list, name)) && Has(Lookup(dd, list, name), name)
    ensures Place(Lookup(dd, list, name), name) == Place(list, name)
  {
    hide Less;
    if !Has(list, name) {
      var i := Place(list, name);
      var list' := Lookup(dd, list, name);
      Inserted(list, NewEntry(dd, name));
      LessIsStrict(name, name);
      PlaceIs(list', name, i);
    }
  }

  /** A later date for a level replaces the earlier one; bad levels and earlier dates are ignored. */
  function Enter(dd: Dumpdates, list: seq<Entry>, r: Record): seq<Entry>
    requires Good(list)
  {
    LookupFinds(dd, list, r.name);
    var list1 := Lookup(dd, list, r.name);
    var i := Place(list1, r.name);
    if !(0 <= r.level < DUMP_LEVELS) || r.date < list1[i].dates[r.level] then list1
    else list1[i := Entry(r.name, list1[i].dates[r.level := r.date])]
  }

  /** A change of one entry's dates. */
  lemma SetDates(list: seq<Entry>, i: nat, dates: Dates, name: seq<byte>)
    requires Sorted(list) && i < |list|
    ensures var list' := list[i := Entry(list[i].name, dates)];
      && Sorted(list') && Place(list', name) == Place(list, name) && (Has(list', name) <==> Has(list, name))
  {
    var list' := list[i := Entry(list[i].name, dates)];
    assert forall k | 0 <= k < |list| :: list'[k].name == list[k].name;
    PlaceIs(list', name, Place(list, name));
  }

  lemma EnterGood(dd: Dumpdates, list: seq<Entry>, r: Record)
    requires Good(list)
    ensures Good(Enter(dd, list, r))
  {
    LookupFinds(dd, list, r.name);
    var list1 := Lookup(dd, list, r.name);
    var i := Place(list1, r.name);
    if 0 <= r.level < DUMP_LEVELS && r.date >= list1[i].dates[r.level] {
      SetDates(list1, i, list1[i].dates[r.level := r.date], r.name);
    }
  }

  /** What a name's date is once the name has been looked up. */
  function Known(dd: Dumpdates, list: seq<Entry>, name: seq<byte>, level: nat): int
    requires level < DUMP_LEVELS
  {
    if Has(list, name) then DateOf(list, name, level) else Imported(dd(name), level)
  }

  lemma LookupDates(dd: Dumpdates, list: seq<Entry>, name: seq<byte>, n: seq<byte>, l: nat)
    requires Good(list) && l < DUMP_LEVELS
    ensures DateOf(Lookup(dd, list, name), n, l) == if n == name then Known(dd, list, name, l) else DateOf(list, n, l)
    ensures Has(Lookup(dd, list, name), n) <==> n == name || Has(list, n)
  {
    LookupFinds(dd, list, name);
    if !Has(list, name) {
      if n == name {
        Inserted(list, NewEntry(dd, name));
      } else {
        InsertedOther(list, NewEntry(dd, name), n);
      }
    }
  }

  /** Inserting an entry moves the others at most. */
  lemma InsertedOther(list: seq<Entry>, e: Entry, n: seq<byte>)
    requires Sorted(list) && !Has(list, e.name) && n != e.name
    ensures var i := Place(list, e.name); var list' := list[..i] + [e] + list[i..];
      && (Has(list', n) <==> Has(list, n))
      && (Has(list, n) ==> list'[Place(list', n)] == list[Place(list, n)])
  {
    hide Less;
    var i, j := Place(list, e.name), Place(list, n);
    var list' := list[..i] + [e] + list[i..];
    Inserted(list, e);
    LessIsStrict(e.name, n);
    if Less(e.name, n) {
      forall k | 0 <= k < i ensures Less(list[k].name, n) {
        LessIsTransitive(list[k].name, e.name, n);
      }
      assert j >= i;
      PlaceIs(list', n, j + 1);
    } else {
      NotAfter(list, e.name, n);
      PlaceIs(list', n, j);
    }
  }

  /** A smaller name has its place no later. */
  lemma NotAfter(list: seq<Entry>, name: seq<byte>, n: seq<byte>)
    requires Less(n, name)
    ensures Place(list, n) <= Place(list, name)
  {
    var i, j := Place(list, name), Place(list, n);
    if i < j {
      LessIsTransitive(list[i].name, n, name);
    }
  }

  /** After a record is entered, its name's date for its level is the later of the known and the
      given one, and no other date differs. */
  lemma EnterDates(dd: Dumpdates, list: seq<Entry>, r: Record, n: seq<byte>, l: nat)
    requires Good(list) && l < DUMP_LEVELS
    ensures DateOf(Enter(dd, list, r), n, l) ==
      if n != r.name then DateOf(list, n, l)
      else if l == r.level then Max(Known(dd, list, n, l), r.date)
      else Known(dd, list, n, l)
    ensures Has(Enter(dd, list, r), n) <==> n == r.name || Has(list, n)
  {
    LookupFinds(dd, list, r.name);
    LookupDates(dd, list, r.name, n, l);
    var list1 := Lookup(dd, list, r.name);
    var i := Place(list1, r.name);
    if 0 <= r.level < DUMP_LEVELS && r.date >= list1[i].dates[r.level] {
      SetDates(list1, i, list1[i].dates[r.level := r.date], n);
    }
  }

  function EnterAll(dd: Dumpdates, records: seq<Record>): (list: seq<Entry>)
    ensures Good(list)
  {
    if records == [] then []
    else
      var before := EnterAll(dd, records[..|records| - 1]);
      EnterGood(dd, before, records[|records| - 1]);
      Enter(dd, before, records[|records| - 1])
  }

  predicate Mentions(records: seq<Record>, name: seq<byte>) {
    exists k | 0 <= k < |records| :: records[k].name == name
  }

  /** The latest date given for a name and level, or the epoch. */
  function LatestGiven(records: seq<Record>, name: seq<byte>, level: nat): int {
    if records == [] then EPOCH
    else
      var last := records[|records| - 1];
      Max(LatestGiven(records[..|records| - 1], name, level), if last.name == name && last.level == level then last.date else EPOCH)
  }

  /** Dates only grow: after any records, a name's date for a level is the latest that was given
      for it or imported, whatever the order; names never mentioned have none. */
  lemma {:induction false} DatesAreLatest(dd: Dumpdates, records: seq<Record>, name: seq<byte>, level: nat)
    requires level < DUMP_LEVELS
    ensures Has(EnterAll(dd, records), name) <==> Mentions(records, name)
    ensures DateOf(EnterAll(dd, records), name, level) ==
      if Mentions(records, name) then Max(Imported(dd(name), level), LatestGiven(records, name, level)) else EPOCH
  {
    if records != [] {
      var before, last := records[..|records| - 1], records[|records| - 1];
      DatesAreLatest(dd, before, name, level);
      EnterDates(dd, EnterAll(dd, before), last, name, level);
      MentionsLast(records, name);
      LatestIfMentioned(before, name, level);
      LatestLast(records, name, level);
      assert EnterAll(dd, records) == Enter(dd, EnterAll(dd, before), last);
      hide Enter, Mentions, Imported, DateOf, Has, EnterAll, LatestGiven;
    } else {
      assert Place([], name) == 0;
    }
  }

  lemma LatestLast(records: seq<Record>, name: seq<byte>, level: nat)
    requires records != []
    ensures var last := records[|records| - 1];
      LatestGiven(records, name, level) ==
        Max(LatestGiven(records[..|records| - 1], name, level), if last.name == name && last.level == level then last.date else EPOCH)
  {}

  lemma MentionsLast(records: seq<Record>, name: seq<byte>)
    requires records != []
    ensures Mentions(records, name) <==> Mentions(records[..|records| - 1], name) || records[|records| - 1].name == name
  {
    var before := records[..|records| - 1];
    assert forall k | 0 <= k < |before| :: records[k] == before[k];
    if Mentions(before, name) {
      var k :| 0 <= k < |before| && before[k].name == name;
      assert records[k].name == name;
    }
    assert records[|records| - 1].name == name ==> Mentions(records, name);
  }

  lemma {:induction false} LatestIfMentioned(records: seq<Record>, name: seq<byte>, level: nat)
    ensures LatestGiven(records, name, level) >= EPOCH
    ensures !Mentions(records, name) ==> LatestGiven(records, name, level) == EPOCH
  {
    if records != [] {
      var before := records[..|records| - 1];
      LatestIfMentioned(before, name, level);
      assert forall k | 0 <= k < |before| :: records[k] == before[k];
      assert Mentions(before, name) ==> Mentions(records, name);
      assert records[|records| - 1].name == name ==> Mentions(records, name);
    }
  }
}

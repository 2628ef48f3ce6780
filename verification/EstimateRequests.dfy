/** What a client is asked to estimate, and since when. */
module EstimateRequests {
  import opened Text

  const DUMP_LEVELS := 400
  const EPOCH := 0

  function Max(a: int, b: int): int { if a < b then b else a }

  // ---------- since when ----------

  /** The latest dump of a lower level; the epoch if there is none. */
  function MaxBelow(dates: seq<int>, level: nat): int
    requires level <= |dates|
  {
    if level == 0 then EPOCH else Max(MaxBelow(dates, level - 1), dates[level - 1])
  }

  lemma {:induction false} MaxBelowIsMax(dates: seq<int>, level: nat)
    requires level <= |dates|
    ensures MaxBelow(dates, level) >= EPOCH && forall l | 0 <= l < level :: dates[l] <= MaxBelow(dates, level)
    ensures MaxBelow(dates, level) == EPOCH || exists l | 0 <= l < level :: dates[l] == MaxBelow(dates, level)
  {
    if level > 0 {
      MaxBelowIsMax(dates, level - 1);
    }
  }

  /** For an estimate: every level's date at once, each dump date handed up to the levels above it. */
  method EstimateSince(dates: seq<int>) returns (since: array<int>)
    requires |dates| == DUMP_LEVELS
    ensures fresh(since) && since.Length == DUMP_LEVELS
    ensures forall level | 0 <= level < DUMP_LEVELS :: since[level] == MaxBelow(dates, level)
  {
    since := new int[DUMP_LEVELS](_ => 0);
    for dumpLevel := 0 to DUMP_LEVELS
      invariant forall k | 0 <= k < DUMP_LEVELS :: since[k] == MaxBelow(dates, if k < dumpLevel then k else dumpLevel)
    {
      var date := dates[dumpLevel];
      for level := dumpLevel + 1 to DUMP_LEVELS
        invariant forall k | 0 <= k < DUMP_LEVELS ::
          since[k] == MaxBelow(dates, if k < dumpLevel then k else if dumpLevel < k < level then dumpLevel + 1 else dumpLevel)
      {
        if date > since[level] { since[level] := date; }
      }
    }
  }

  /** For a GNU tar backup that keeps no list directory. */
  method BackupSince(dates: seq<int>, level: nat) returns (since: int)
    requires level <= |dates|
    ensures since == MaxBelow(dates, level)
  {
    since := EPOCH;
    for l := 0 to level
      invariant since == MaxBelow(dates, l)
    {
      if dates[l] > since { since := dates[l]; }
    }
  }

  const INT_LIMIT := 0x8000_0000

  /** What an int variable holds after it is assigned a wider value. */
  function ToInt(n: int): (r: int)
    ensures -INT_LIMIT <= r < INT_LIMIT && (r - n) % (2 * INT_LIMIT) == 0
    ensures -INT_LIMIT <= n < INT_LIMIT ==> r == n
  {
    (n + INT_LIMIT) % (2 * INT_LIMIT) - INT_LIMIT
  }

  function NarrowMaxBelow(dates: seq<int>, level: nat): int
    requires level <= |dates|
  {
    if level == 0 then EPOCH
    else
      var since := NarrowMaxBelow(dates, level - 1);
      if since < dates[level - 1] then ToInt(dates[level - 1]) else since
  }

  /** For calcsize, where the variable is an int although dates are wider. */
  method CalcsizeSince(dates: seq<int>, level: nat) returns (since: int)
    requires level <= |dates|
    ensures since == NarrowMaxBelow(dates, level)
  {
    since := EPOCH;
    for l := 0 to level
      invariant since == NarrowMaxBelow(dates, l)
    {
      if since < dates[l] { since := ToInt(dates[l]); }
    }
  }

  /** The three agree exactly when the latest date fits an int. */
  lemma {:induction false} SinceDatesAgree(dates: seq<int>, level: nat)
    requires level <= |dates|
    ensures NarrowMaxBelow(dates, level) == MaxBelow(dates, level) <==> MaxBelow(dates, level) < INT_LIMIT
  {
    NarrowFits(dates, level);
    if MaxBelow(dates, level) < INT_LIMIT {
      NarrowAgrees(dates, level);
    }
  }

  lemma {:induction false} NarrowFits(dates: seq<int>, level: nat)
    requires level <= |dates|
    ensures NarrowMaxBelow(dates, level) < INT_LIMIT
  {
    if level > 0 {
      NarrowFits(dates, level - 1);
    }
  }

  lemma {:induction false} NarrowAgrees(dates: seq<int>, level: nat)
    requires level <= |dates| && MaxBelow(dates, level) < INT_LIMIT
    ensures NarrowMaxBelow(dates, level) == MaxBelow(dates, level) >= EPOCH
  {
    if level > 0 {
      NarrowAgrees(dates, level - 1);
    }
  }

  /** Otherwise calcsize's date is the later of the last date that does not fit, cut to an int, and the
      dates after it. */
  lemma {:induction false} CalcsizeOtherwise(dates: seq<int>, level: nat, l: nat)
    requires l < level <= |dates| && dates[l] >= INT_LIMIT && forall k | l < k < level :: dates[k] < INT_LIMIT
    ensures var since := NarrowMaxBelow(dates, level);
      && since >= ToInt(dates[l]) && (forall k | l < k < level :: since >= dates[k])
      && (since == ToInt(dates[l]) || exists k | l < k < level :: since == dates[k])
  {
    NarrowFits(dates, level - 1);
    if l < level - 1 {
      CalcsizeOtherwise(dates, level - 1, l);
    }
  }

  // ---------- how many at a time ----------

  const MAX_MAXDUMPS := 16

  /** What the last usable value asks for, within limits; one by default. */
  function MaxdumpsOf(values: seq<Option<int>>): (n: nat)
    ensures 1 <= n <= MAX_MAXDUMPS
  {
    if values == [] then 1
    else
      var last := values[|values| - 1];
      if last.Some? && last.value > 0 then (if last.value > MAX_MAXDUMPS then MAX_MAXDUMPS else last.value)
      else MaxdumpsOf(values[..|values| - 1])
  }

  predicate Usable(value: Option<int>) { value.Some? && value.value > 0 }

  /** The last value that is a positive number counts, up to the limit; without one it is 1. */
  lemma {:induction false} LastUsable(values: seq<Option<int>>)
    ensures (forall k | 0 <= k < |values| :: !Usable(values[k])) ==> MaxdumpsOf(values) == 1
    ensures forall k | 0 <= k < |values| && Usable(values[k]) && (forall h | k < h < |values| :: !Usable(values[h])) ::
      MaxdumpsOf(values) == if values[k].value > 16 then 16 else values[k].value
  {
    if values != [] && !Usable(values[|values| - 1]) {
      LastUsable(values[..|values| - 1]);
    }
  }

  /** The maxdumps options of a request, in order: the numbers scanned from them, if any. */
  method ParseMaxdumps(values: seq<Option<int>>) returns (maxdumps: nat)
    ensures maxdumps == MaxdumpsOf(values)
    ensures 1 <= maxdumps <= MAX_MAXDUMPS
  {
    var m := 0;
    for i := 0 to |values|
      invariant m >= 0 && (if m == 0 then 1 else m) == MaxdumpsOf(values[..i])
    {
      assert values[..i + 1][..i] == values[..i];
      match values[i]
      case Some(n) =>
        if n > MAX_MAXDUMPS { m := MAX_MAXDUMPS; } else if n > 0 { m := n; }
      case None =>
    }
    assert values[..|values|] == values;
    maxdumps := if m == 0 then 1 else m;
  }

  // ---------- which estimates ----------

  datatype Level = Level(level: int, server: bool)
  datatype Request = Request(disk: string, levels: seq<Level>, useDates: bool, dates: seq<int>)

  /** needed tells, for each level to estimate, whether the server could do it. */
  datatype Estimate = Estimate(disk: string, needed: map<nat, bool>, since: seq<int>)

  function Distance(a: int, b: int): nat { if a < b then b - a else a - b }

  /** The nearest level that there is. */
  function Clamp(level: int): (r: nat)
    ensures r < DUMP_LEVELS && forall l: nat | l < DUMP_LEVELS :: Distance(level, r) <= Distance(level, l)
  {
    if level < 0 then 0 else if level >= DUMP_LEVELS then DUMP_LEVELS - 1 else level
  }

  function Note(needed: map<nat, bool>, levels: seq<Level>): map<nat, bool> {
    if levels == [] then needed
    else
      var last := levels[|levels| - 1];
      Note(needed, levels[..|levels| - 1])[Clamp(last.level) := last.server]
  }

  predicate Asks(r: Request, disk: string, level: nat) {
    r.disk == disk && exists k | 0 <= k < |r.levels| :: Clamp(r.levels[k].level) == level
  }

  function Find(list: seq<Estimate>, disk: string): (i: nat)
    ensures i <= |list|
    ensures i < |list| ==> list[i].disk == disk
    ensures forall k | 0 <= k < i :: list[k].disk != disk
  {
    if list == [] || list[0].disk == disk then 0 else 1 + Find(list[1..], disk)
  }

  function SinceOf(r: Request): seq<int>
    requires |r.dates| == DUMP_LEVELS
  {
    seq(DUMP_LEVELS, l requires 0 <= l < DUMP_LEVELS => if r.useDates then MaxBelow(r.dates, l) else 0)
  }

  function Add(list: seq<Estimate>, r: Request): seq<Estimate>
    requires |r.dates| == DUMP_LEVELS
  {
    var i := Find(list, r.disk);
    if r.levels == [] then list
    else if i < |list| then list[i := list[i].(needed := Note(list[i].needed, r.levels))]
    else [Estimate(r.disk, Note(map[], r.levels), SinceOf(r))] + list
  }

  class EstimateList {
    var list: seq<Estimate>

    constructor ()
      ensures list == []
    {
      list := [];
    }

    /** Adds a disk's estimates, or notes more levels for a disk that is there already. */
    method AddDiskEstimate(r: Request) returns (added: bool)
      requires |r.dates| == DUMP_LEVELS
      modifies this
      ensures list == Add(old(list), r)
      ensures added <==> r.levels != [] && Find(old(list), r.disk) == |old(list)|
    {
      if r.levels == [] { return false; }
      var i := 0;
      while i < |list| && list[i].disk != r.disk
        invariant i <= |list| && forall k | 0 <= k < i :: list[k].disk != r.disk
      {
        i := i + 1;
      }
      FindIs(list, r.disk, i);
      if i < |list| {
        var needed := NoteLevels(list[i].needed, r.levels);
        list := list[i := list[i].(needed := needed)];
        return false;
      }
      var needed := NoteLevels(map[], r.levels);
      var since := seq(DUMP_LEVELS, _ => 0);
      if r.useDates {
        var dates := EstimateSince(r.dates);
        since := dates[..];
      }
      assert since == SinceOf(r);
      list := [Estimate(r.disk, needed, since)] + list;
      added := true;
    }
  }

  lemma FindIs(list: seq<Estimate>, disk: string, i: nat)
    requires i <= |list| && (i < |list| ==> list[i].disk == disk)
    requires forall k | 0 <= k < i :: list[k].disk != disk
    ensures Find(list, disk) == i
  {}

  method NoteLevels(needed: map<nat, bool>, levels: seq<Level>) returns (r: map<nat, bool>)
    ensures r == Note(needed, levels)
  {
    r := needed;
    for i := 0 to |levels|
      invariant r == Note(needed, levels[..i])
    {
      assert levels[..i + 1][..i] == levels[..i];
      r := r[Clamp(levels[i].level) := levels[i].server];
    }
    assert levels[..|levels|] == levels;
  }

  // ---------- after all requests ----------

  function AddAll(requests: seq<Request>): seq<Estimate>
    requires forall k | 0 <= k < |requests| :: |requests[k].dates| == DUMP_LEVELS
  {
    if requests == [] then [] else Add(AddAll(requests[..|requests| - 1]), requests[|requests| - 1])
  }

  predicate Needs(list: seq<Estimate>, disk: string, level: nat) {
    Find(list, disk) < |list| && level in list[Find(list, disk)].needed
  }

  lemma {:induction false} NoteKeys(needed: map<nat, bool>, levels: seq<Level>, level: nat)
    ensures level in Note(needed, levels) <==>
      level in needed || exists k | 0 <= k < |levels| :: Clamp(levels[k].level) == level
  {
    if levels != [] {
      NoteKeys(needed, levels[..|levels| - 1], level);
      assert Clamp(levels[|levels| - 1].level) == level ==> exists k | 0 <= k < |levels| :: Clamp(levels[k].level) == level;
    }
  }

  lemma AddNeeds(list: seq<Estimate>, r: Request, disk: string, level: nat)
    requires |r.dates| == DUMP_LEVELS
    ensures Needs(Add(list, r), disk, level) <==> Needs(list, disk, level) || Asks(r, disk, level)
  {
    var i, j := Find(list, r.disk), Find(list, disk);
    var list' := Add(list, r);
    if r.levels != [] {
      NoteKeys(if i < |list| then list[i].needed else map[], r.levels, level);
      if i < |list| {
        FindIs(list', disk, j);
      } else {
        FindIs(list', disk, if disk == r.disk then 0 else j + 1);
      }
    }
  }

  /** Each disk has one entry, whose levels are those asked for in any of the disk's requests. */
  lemma {:induction false} RequestsMerged(requests: seq<Request>, disk: string, level: nat)
    requires forall k | 0 <= k < |requests| :: |requests[k].dates| == DUMP_LEVELS
    ensures var list := AddAll(requests);
      && (forall i, j | 0 <= i < j < |list| :: list[i].disk != list[j].disk)
      && (Needs(list, disk, level) <==> exists k | 0 <= k < |requests| :: Asks(requests[k], disk, level))
  {
    if requests != [] {
      var front, last := requests[..|requests| - 1], requests[|requests| - 1];
      RequestsMerged(front, disk, level);
      AddNeeds(AddAll(front), last, disk, level);
      assert forall k | 0 <= k < |front| :: requests[k] == front[k];
      assert Asks(last, disk, level) ==> exists k | 0 <= k < |requests| :: Asks(requests[k], disk, level);
    }
  }

  /** Something is asked for the disk. */
  predicate For(r: Request, disk: string) {
    r.disk == disk && r.levels != []
  }

  /** The disk's first request. */
  predicate First(requests: seq<Request>, disk: string, k: nat) {
    k < |requests| && For(requests[k], disk) && forall h | 0 <= h < k :: !For(requests[h], disk)
  }

  /** The disk has an entry, with these dates. */
  predicate HasDates(list: seq<Estimate>, disk: string, since: seq<int>) {
    Find(list, disk) < |list| && list[Find(list, disk)].since == since
  }

  lemma AddFinds(list: seq<Estimate>, r: Request, disk: string)
    requires |r.dates| == DUMP_LEVELS
    ensures var list' := Add(list, r);
      if For(r, r.disk) && Find(list, r.disk) == |list|
      then Find(list', disk) == if disk == r.disk then 0 else Find(list, disk) + 1
      else |list'| == |list| && Find(list', disk) == Find(list, disk)
    ensures Find(list, disk) < |list| ==> HasDates(Add(list, r), disk, list[Find(list, disk)].since)
    ensures Find(list, disk) == |list| && For(r, disk) ==> HasDates(Add(list, r), disk, SinceOf(r))
    ensures Find(list, disk) == |list| && !For(r, disk) ==> Find(Add(list, r), disk) == |Add(list, r)|
  {
    var i, j := Find(list, r.disk), Find(list, disk);
    var list' := Add(list, r);
    if r.levels != [] {
      if i < |list| {
        FindIs(list', disk, j);
      } else {
        FindIs(list', disk, if disk == r.disk then 0 else j + 1);
      }
    }
  }

  lemma {:induction false} NoEntry(requests: seq<Request>, disk: string)
    requires forall k | 0 <= k < |requests| :: |requests[k].dates| == DUMP_LEVELS && !For(requests[k], disk)
    ensures Find(AddAll(requests), disk) == |AddAll(requests)|
  {
    if requests != [] {
      NoEntry(requests[..|requests| - 1], disk);
      hide Add, Find;
      AddFinds(AddAll(requests[..|requests| - 1]), requests[|requests| - 1], disk);
    }
  }

  /** An entry has the dates of the disk's first request: for each level the latest dump of a lower one
      if dates are to be used, and 0 if not. */
  lemma {:induction false} MergedDates(requests: seq<Request>, disk: string, k: nat, level: nat)
    requires forall k | 0 <= k < |requests| :: |requests[k].dates| == DUMP_LEVELS
    requires First(requests, disk, k) && level < DUMP_LEVELS
    ensures var list := AddAll(requests);
      var i := Find(list, disk);
      i < |list| && |list[i].since| == DUMP_LEVELS
      && list[i].since[level] == if requests[k].useDates then MaxBelow(requests[k].dates, level) else 0
  {
    FirstDates(requests, disk, k);
  }

  lemma {:induction false} FirstDates(requests: seq<Request>, disk: string, k: nat)
    requires forall k | 0 <= k < |requests| :: |requests[k].dates| == DUMP_LEVELS
    requires First(requests, disk, k)
    ensures HasDates(AddAll(requests), disk, SinceOf(requests[k]))
  {
    var front, last := requests[..|requests| - 1], requests[|requests| - 1];
    AddFinds(AddAll(front), last, disk);
    hide Add, Find, SinceOf;
    if k < |front| {
      assert First(front, disk, k);
      FirstDates(front, disk, k);
    } else {
      NoEntry(front, disk);
    }
  }

  /** Of two disks, the one that was asked for first comes later in the list. */
  lemma {:induction false} NewestInFront(requests: seq<Request>, older: string, newer: string, h: nat, k: nat)
    requires forall k | 0 <= k < |requests| :: |requests[k].dates| == DUMP_LEVELS
    requires First(requests, older, h) && First(requests, newer, k) && h < k
    ensures Find(AddAll(requests), newer) < Find(AddAll(requests), older) < |AddAll(requests)|
  {
    var front, last := requests[..|requests| - 1], requests[|requests| - 1];
    AddFinds(AddAll(front), last, older);
    AddFinds(AddAll(front), last, newer);
    hide Add, Find, SinceOf;
    assert First(front, older, h);
    FirstDates(front, older, h);
    if k < |front| {
      assert First(front, newer, k);
      NewestInFront(front, older, newer, h, k);
    } else {
      NoEntry(front, newer);
    }
  }

  /** The nth level of the kth request asks for that level of that disk. */
  predicate AsksAt(requests: seq<Request>, disk: string, level: nat, k: nat, n: nat) {
    k < |requests| && requests[k].disk == disk && n < |requests[k].levels| && Clamp(requests[k].levels[n].level) == level
  }

  lemma {:induction false} LastNoted(needed: map<nat, bool>, levels: seq<Level>, level: nat, n: nat)
    requires n < |levels| && Clamp(levels[n].level) == level
    requires forall m | n < m < |levels| :: Clamp(levels[m].level) != level
    ensures level in Note(needed, levels) && Note(needed, levels)[level] == levels[n].server
  {
    if n < |levels| - 1 {
      LastNoted(needed, levels[..|levels| - 1], level, n);
    }
  }

  lemma {:induction false} NotNoted(needed: map<nat, bool>, levels: seq<Level>, level: nat)
    requires level in needed && forall m | 0 <= m < |levels| :: Clamp(levels[m].level) != level
    ensures level in Note(needed, levels) && Note(needed, levels)[level] == needed[level]
  {
    if levels != [] {
      NotNoted(needed, levels[..|levels| - 1], level);
    }
  }

  /** What is noted of a disk so far. */
  function NeededOf(list: seq<Estimate>, disk: string): map<nat, bool> {
    var i := Find(list, disk);
    if i < |list| then list[i].needed else map[]
  }

  lemma AddNotes(list: seq<Estimate>, r: Request, disk: string)
    requires |r.dates| == DUMP_LEVELS
    ensures NeededOf(Add(list, r), disk) == if r.disk == disk then Note(NeededOf(list, disk), r.levels) else NeededOf(list, disk)
    ensures For(r, disk) ==> Find(Add(list, r), disk) < |Add(list, r)|
  {
    AddFinds(list, r, disk);
  }

  lemma NotAfter(requests: seq<Request>, disk: string, level: nat, k: nat, n: nat, m: nat)
    requires k == |requests| - 1 && requests[k].disk == disk && n < m < |requests[k].levels|
    requires forall h: nat, m: nat | AsksAt(requests, disk, level, h, m) :: h < k || (h == k && m <= n)
    ensures Clamp(requests[k].levels[m].level) != level
  {
    assert !AsksAt(requests, disk, level, k, m);
  }

  lemma NotInLast(requests: seq<Request>, disk: string, level: nat, k: nat, n: nat, m: nat)
    requires k < |requests| - 1 && requests[|requests| - 1].disk == disk && m < |requests[|requests| - 1].levels|
    requires forall h: nat, m: nat | AsksAt(requests, disk, level, h, m) :: h < k || (h == k && m <= n)
    ensures Clamp(requests[|requests| - 1].levels[m].level) != level
  {
    assert !AsksAt(requests, disk, level, |requests| - 1, m);
  }

  /** Whether the server could do an estimate is what the last request for it says. */
  lemma {:induction false} LastServer(requests: seq<Request>, disk: string, level: nat, k: nat, n: nat)
    requires forall k | 0 <= k < |requests| :: |requests[k].dates| == DUMP_LEVELS
    requires AsksAt(requests, disk, level, k, n)
    requires forall h: nat, m: nat | AsksAt(requests, disk, level, h, m) :: h < k || (h == k && m <= n)
    ensures var needed := NeededOf(AddAll(requests), disk); level in needed && needed[level] == requests[k].levels[n].server
  {
    var front, last := requests[..|requests| - 1], requests[|requests| - 1];
    var needed := NeededOf(AddAll(front), disk);
    AddNotes(AddAll(front), last, disk);
    hide Add, NeededOf, Note, Clamp;
    if k < |front| {
      forall h: nat, m: nat | AsksAt(front, disk, level, h, m) ensures h < k || (h == k && m <= n) {
        assert AsksAt(requests, disk, level, h, m);
      }
      LastServer(front, disk, level, k, n);
      if last.disk == disk {
        forall m: nat | m < |last.levels| ensures Clamp(last.levels[m].level) != level {
          NotInLast(requests, disk, level, k, n, m);
        }
        NotNoted(needed, last.levels, level);
      }
    } else {
      forall m: nat | n < m < |last.levels| ensures Clamp(last.levels[m].level) != level {
        NotAfter(requests, disk, level, k, n, m);
      }
      LastNoted(needed, last.levels, level, n);
    }
  }
}

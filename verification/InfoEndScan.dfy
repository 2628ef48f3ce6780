/** Finding the end of the dump information in a stream that arrives in pieces. */
module InfoEndScan {
  import opened Text

  /** "sendbackup: info end" and a newline. */
  const INFO_END: seq<byte> :=
    [115, 101, 110, 100, 98, 97, 99, 107, 117, 112, 58, 32, 105, 110, 102, 111, 32, 101, 110, 100, 10]
  const INFO_END_LEN := 21
  const DASH: byte := 45

  function Dashes(): (d: seq<byte>)
    ensures |d| == INFO_END_LEN && forall i | 0 <= i < INFO_END_LEN :: d[i] == DASH
  {
    seq(INFO_END_LEN, _ => DASH)
  }

  predicate OccursAt(s: seq<byte>, i: nat) {
    i + INFO_END_LEN <= |s| && s[i..i + INFO_END_LEN] == INFO_END
  }

  predicate Occurs(s: seq<byte>) {
    exists i: nat | i <= |s| :: OccursAt(s, i)
  }

  datatype Scan = Scan(seen: bool, last: seq<byte>)

  const FRESH := Scan(false, Dashes())

  /** One read of the stream: search the last bytes and the new ones, keep the last bytes. */
  function Next(scan: Scan, data: seq<byte>): Scan
    requires |scan.last| == INFO_END_LEN
  {
    if scan.seen then scan
    else
      var combined := scan.last + data;
      Scan(Occurs(CString(combined)), combined[|data|..])
  }

  function ScanAll(pieces: seq<seq<byte>>): (scan: Scan)
    ensures |scan.last| == INFO_END_LEN
  {
    if pieces == [] then FRESH else Next(ScanAll(pieces[..|pieces| - 1]), pieces[|pieces| - 1])
  }

  // ---------- the window is enough ----------

  lemma OccursIn(s: seq<byte>, t: seq<byte>)
    ensures Occurs(s) ==> Occurs(s + t) && Occurs(t + s)
  {
    if Occurs(s) {
      var i: nat :| i <= |s| && OccursAt(s, i);
      assert (s + t)[i..i + INFO_END_LEN] == s[i..i + INFO_END_LEN];
      assert OccursAt(s + t, i);
      assert (t + s)[|t| + i..|t| + i + INFO_END_LEN] == s[i..i + INFO_END_LEN];
      assert OccursAt(t + s, |t| + i);
    }
  }

  lemma FirstByte(s: seq<byte>, i: nat)
    requires OccursAt(s, i)
    ensures s[i] == INFO_END[0]
  {
    assert s[i] == s[i..i + INFO_END_LEN][0];
  }

  /** What is found in the dashes and the stream is found in the stream. */
  lemma DashesHideNothing(s: seq<byte>)
    ensures Occurs(Dashes() + s) <==> Occurs(s)
  {
    OccursIn(s, Dashes());
    if Occurs(Dashes() + s) {
      var i: nat :| i <= |Dashes() + s| && OccursAt(Dashes() + s, i);
      var t := Dashes() + s;
      FirstByte(t, i);
      assert t[i..i + INFO_END_LEN] == s[i - INFO_END_LEN..i];
      assert OccursAt(s, i - INFO_END_LEN);
    }
  }

  lemma Earlier(s: seq<byte>, data: seq<byte>, i: nat)
    requires OccursAt(s + data, i)
    ensures i + INFO_END_LEN <= |s| ==> Occurs(s)
  {
    if i + INFO_END_LEN <= |s| {
      assert s[i..i + INFO_END_LEN] == (s + data)[i..i + INFO_END_LEN];
      assert OccursAt(s, i);
    }
  }

  /** An occurrence that is new with some data lies in the last bytes before it and the data. */
  lemma NewOccurrence(s: seq<byte>, data: seq<byte>)
    requires |s| >= INFO_END_LEN && !Occurs(s)
    ensures Occurs(s + data) <==> Occurs(s[|s| - INFO_END_LEN..] + data)
  {
    var n := |s| - INFO_END_LEN;
    var window := s[n..] + data;
    assert s + data == s[..n] + window;
    OccursIn(window, s[..n]);
    if Occurs(s + data) {
      var i: nat :| i <= |s + data| && OccursAt(s + data, i);
      Earlier(s, data, i);
      assert i > n;
      assert window[i - n..i - n + INFO_END_LEN] == (s + data)[i..i + INFO_END_LEN];
      assert OccursAt(window, i - n);
    }
  }

  // ---------- the theorems ----------

  predicate NulFree(s: seq<byte>) { NUL !in s }

  predicate KeepsLast(scan: Scan, s: seq<byte>) {
    !scan.seen ==> |s| >= INFO_END_LEN && scan.last == s[|s| - INFO_END_LEN..]
  }

  lemma NextKeepsLast(scan: Scan, s: seq<byte>, data: seq<byte>)
    requires |scan.last| == INFO_END_LEN && KeepsLast(scan, s)
    ensures KeepsLast(Next(scan, data), s + data)
  {
    hide Occurs, CString;
    if !scan.seen {
      LastOf(s, data);
    }
  }

  /** Until the text is seen, the last bytes are kept. */
  lemma {:induction false} ScanKeepsLast(pieces: seq<seq<byte>>)
    ensures KeepsLast(ScanAll(pieces), Dashes() + Flatten(pieces))
  {
    if pieces == [] {
      assert Dashes() + [] == Dashes();
    } else {
      var front, data := pieces[..|pieces| - 1], pieces[|pieces| - 1];
      hide Next, KeepsLast, Dashes;
      ScanKeepsLast(front);
      NextKeepsLast(ScanAll(front), Dashes() + Flatten(front), data);
      JoinRight(Dashes(), Flatten(front), data);
    }
  }

  lemma JoinRight(x: seq<byte>, y: seq<byte>, z: seq<byte>)
    ensures x + (y + z) == (x + y) + z
  {}

  lemma LastOf(s: seq<byte>, data: seq<byte>)
    requires |s| >= INFO_END_LEN
    ensures (s[|s| - INFO_END_LEN..] + data)[|data|..] == (s + data)[|s + data| - INFO_END_LEN..]
  {}

  /** One read keeps "seen" right, given that it was right. */
  lemma NextExact(scan: Scan, s: seq<byte>, data: seq<byte>)
    requires |scan.last| == INFO_END_LEN && KeepsLast(scan, Dashes() + s)
    requires scan.seen <==> Occurs(s)
    requires NulFree(s + data)
    ensures Next(scan, data).seen <==> Occurs(s + data)
  {
    hide Occurs, CString;
    if scan.seen {
      OccursIn(s, data);
    } else {
      JoinRight(Dashes(), s, data);
      DashesHideNothing(s);
      DashesHideNothing(s + data);
      NewOccurrence(Dashes() + s, data);
      assert NUL !in scan.last + data;
    }
  }

  /** For every way of cutting a NUL-free stream into reads, the scan has seen the text exactly
      when the stream so far contains it. */
  lemma {:induction false} ScanExact(pieces: seq<seq<byte>>)
    requires NulFree(Flatten(pieces))
    ensures ScanAll(pieces).seen <==> Occurs(Flatten(pieces))
  {
    if pieces != [] {
      var front, data := pieces[..|pieces| - 1], pieces[|pieces| - 1];
      hide Occurs, Next, KeepsLast, Dashes;
      ScanExact(front);
      ScanKeepsLast(front);
      NextExact(ScanAll(front), Flatten(front), data);
    }
  }

  /** ... so how the stream is cut makes no difference. */
  lemma CutsDoNotMatter(x: seq<seq<byte>>, y: seq<seq<byte>>)
    requires Flatten(x) == Flatten(y) && NulFree(Flatten(x))
    ensures ScanAll(x).seen == ScanAll(y).seen
  {
    ScanExact(x);
    ScanExact(y);
  }

  lemma CStringPart(s: seq<byte>)
    ensures Occurs(CString(s)) ==> Occurs(s)
  {
    var r := CString(s);
    assert s == r + s[|r|..];
    OccursIn(r, s[|r|..]);
  }

  lemma Within(s: seq<byte>, data: seq<byte>)
    requires |s| >= INFO_END_LEN && Occurs(s[|s| - INFO_END_LEN..] + data)
    ensures Occurs(s + data)
  {
    var n := |s| - INFO_END_LEN;
    assert s + data == s[..n] + (s[n..] + data);
    OccursIn(s[n..] + data, s[..n]);
  }

  lemma NextSound(scan: Scan, s: seq<byte>, data: seq<byte>)
    requires |scan.last| == INFO_END_LEN && KeepsLast(scan, Dashes() + s)
    requires scan.seen ==> Occurs(s)
    ensures Next(scan, data).seen ==> Occurs(s + data)
  {
    hide Occurs, CString;
    if scan.seen {
      OccursIn(s, data);
    } else if Next(scan, data).seen {
      CStringPart(scan.last + data);
      Within(Dashes() + s, data);
      JoinRight(Dashes(), s, data);
      DashesHideNothing(s + data);
    }
  }

  /** In any stream, also with NULs, the text is seen only when it is there. */
  lemma {:induction false} ScanSound(pieces: seq<seq<byte>>)
    ensures ScanAll(pieces).seen ==> Occurs(Flatten(pieces))
  {
    if pieces != [] {
      var front, data := pieces[..|pieces| - 1], pieces[|pieces| - 1];
      hide Occurs, Next, KeepsLast, Dashes;
      ScanSound(front);
      ScanKeepsLast(front);
      NextSound(ScanAll(front), Flatten(front), data);
    }
  }

  // ---------- exactly which occurrences are seen ----------

  /** Where a read begins in the stream. */
  function Begin(pieces: seq<seq<byte>>, k: nat): nat
    requires k <= |pieces|
  {
    |Flatten(pieces[..k])|
  }

  function Max(a: int, b: int): int { if a < b then b else a }

  /** Read number k sees the occurrence at i: it lies in the read and the bytes kept from before it,
      and no NUL stands before it there. */
  predicate SeenBy(pieces: seq<seq<byte>>, k: nat, i: nat)
    requires k < |pieces|
  {
    var s := Flatten(pieces);
    && OccursAt(s, i) && Begin(pieces, k) <= i + INFO_END_LEN <= Begin(pieces, k + 1)
    && NUL !in s[Max(0, Begin(pieces, k) - INFO_END_LEN)..i]
  }

  lemma {:induction false} CStringEndsAtNul(s: seq<byte>)
    ensures NUL !in CString(s)
    ensures |CString(s)| < |s| ==> s[|CString(s)|] == NUL
  {
    if s != [] && s[0] != NUL {
      CStringEndsAtNul(s[1..]);
    }
  }

  lemma TextHasNoNul(s: seq<byte>, j: nat)
    requires OccursAt(s, j)
    ensures forall i | j <= i < j + INFO_END_LEN :: s[i] != NUL
  {
    assert forall i | j <= i < j + INFO_END_LEN :: s[i] == s[j..j + INFO_END_LEN][i - j] == INFO_END[i - j];
    assert NUL !in INFO_END;
  }

  lemma OccursAtFront(c: seq<byte>, s: seq<byte>, j: nat)
    requires c <= s && j + INFO_END_LEN <= |c|
    ensures OccursAt(c, j) <==> OccursAt(s, j)
  {
    assert s[j..j + INFO_END_LEN] == c[j..j + INFO_END_LEN];
  }

  lemma OccursAtBack(s: seq<byte>, b: nat, j: nat)
    requires b <= |s|
    ensures OccursAt(s[b..], j) <==> OccursAt(s, b + j)
  {
    if b + j + INFO_END_LEN <= |s| {
      assert s[b..][j..j + INFO_END_LEN] == s[b + j..b + j + INFO_END_LEN];
    }
  }

  /** The text at a place with no NUL before it. */
  predicate ClearAt(s: seq<byte>, j: nat) {
    j <= |s| && OccursAt(s, j) && NUL !in s[..j]
  }

  ghost predicate HasClear(s: seq<byte>) {
    exists j: nat :: ClearAt(s, j)
  }

  /** The C string at the front holds the text exactly if it occurs with no NUL before it. */
  lemma OccursInCString(s: seq<byte>)
    ensures Occurs(CString(s)) <==> HasClear(s)
  {
    hide CString;
    var c := CString(s);
    CStringEndsAtNul(s);
    if Occurs(c) {
      var j: nat :| j <= |c| && OccursAt(c, j);
      hide OccursAt;
      OccursAtFront(c, s, j) by { OccursFits(c, j); }
      assert s[..j] == c[..j];
      assert ClearAt(s, j);
    }
    if j: nat :| ClearAt(s, j) {
      ClearOccurs(s, c, j);
    }
  }

  lemma OccursFits(s: seq<byte>, j: nat)
    requires OccursAt(s, j)
    ensures j + INFO_END_LEN <= |s|
  {}

  lemma ClearOccurs(s: seq<byte>, c: seq<byte>, j: nat)
    requires ClearAt(s, j) && c <= s && (|c| < |s| ==> s[|c|] == NUL)
    ensures Occurs(c)
  {
    TextHasNoNul(s, j);
    OccursFits(s, j);
    hide OccursAt;
    assert forall i | 0 <= i < j :: s[i] == s[..j][i];
    OccursAtFront(c, s, j);
    assert OccursAt(c, j);
  }

  /** What the last read searches: the bytes kept from before it, and its own. */
  function LastWindow(pieces: seq<seq<byte>>): seq<byte>
    requires pieces != []
  {
    var s := Dashes() + Flatten(pieces[..|pieces| - 1]);
    s[|s| - INFO_END_LEN..] + pieces[|pieces| - 1]
  }

  lemma WindowIs(pieces: seq<seq<byte>>)
    requires pieces != []
    ensures var t := Dashes() + Flatten(pieces); var b := Begin(pieces, |pieces| - 1);
      b <= |t| && LastWindow(pieces) == t[b..]
  {
    var front := Dashes() + Flatten(pieces[..|pieces| - 1]);
    JoinRight(Dashes(), Flatten(pieces[..|pieces| - 1]), pieces[|pieces| - 1]);
    hide Flatten;
    TailAfter(front, pieces[|pieces| - 1]);
  }

  lemma TailAfter(s: seq<byte>, data: seq<byte>)
    requires |s| >= INFO_END_LEN
    ensures s[|s| - INFO_END_LEN..] + data == (s + data)[|s| - INFO_END_LEN..]
  {}

  /** The dashes hold no text. */
  lemma PastDashes(s: seq<byte>, i: nat)
    ensures OccursAt(Dashes() + s, i) <==> i >= INFO_END_LEN && OccursAt(s, i - INFO_END_LEN)
  {
    var t := Dashes() + s;
    if OccursAt(t, i) {
      FirstByte(t, i);
    }
    assert t[INFO_END_LEN..] == s;
    if i >= INFO_END_LEN {
      OccursAtBack(t, INFO_END_LEN, i - INFO_END_LEN);
    }
  }

  /** ... and no NUL. */
  lemma NulInWindow(s: seq<byte>, b: nat, i: nat)
    requires b <= INFO_END_LEN + i && i <= |s|
    ensures NUL in (Dashes() + s)[b..INFO_END_LEN + i] <==> NUL in s[Max(0, b - INFO_END_LEN)..i]
  {
    var t := (Dashes() + s)[b..INFO_END_LEN + i];
    if b >= INFO_END_LEN {
      assert t == s[b - INFO_END_LEN..i];
    } else {
      assert t == Dashes()[b..] + s[..i];
    }
  }

  predicate Sees(pieces: seq<seq<byte>>, k: nat)
    requires k < |pieces|
  {
    exists i: nat | i <= |Flatten(pieces)| :: SeenBy(pieces, k, i)
  }

  /** A place in the last window and the same place in the stream. */
  lemma SamePlace(s: seq<byte>, b: nat, j: nat)
    requires b <= INFO_END_LEN + |s|
    ensures ClearAt((Dashes() + s)[b..], j) <==>
      && INFO_END_LEN <= b + j && OccursAt(s, b + j - INFO_END_LEN)
      && NUL !in s[Max(0, b - INFO_END_LEN)..b + j - INFO_END_LEN]
  {
    var t := Dashes() + s;
    OccursAtBack(t, b, j);
    PastDashes(s, b + j);
    hide OccursAt;
    if OccursAt(t, b + j) {
      OccursFits(t, b + j);
      PlaceNuls(s, b, j);
    }
  }

  lemma PlaceNuls(s: seq<byte>, b: nat, j: nat)
    requires INFO_END_LEN <= b + j <= |s| + INFO_END_LEN
    ensures NUL in (Dashes() + s)[b..][..j] <==> NUL in s[Max(0, b - INFO_END_LEN)..b + j - INFO_END_LEN]
  {
    var t := Dashes() + s;
    assert t[b..][..j] == t[b..b + j];
    NulInWindow(s, b, b + j - INFO_END_LEN);
  }

  lemma LastPieces(pieces: seq<seq<byte>>)
    requires pieces != []
    ensures Begin(pieces, |pieces|) == |Flatten(pieces)| >= Begin(pieces, |pieces| - 1)
  {
    assert pieces[..|pieces|] == pieces;
  }

  /** What the last read sees, in terms of the stream. */
  lemma LastSees(pieces: seq<seq<byte>>)
    requires pieces != []
    ensures Occurs(CString(LastWindow(pieces))) <==> Sees(pieces, |pieces| - 1)
  {
    WindowIs(pieces);
    OccursInCString(LastWindow(pieces));
    LastPieces(pieces);
    hide Occurs, CString, LastWindow, Flatten, Begin, ClearAt, OccursAt;
    if HasClear(LastWindow(pieces)) {
      var j: nat :| ClearAt(LastWindow(pieces), j);
      ClearIsSeen(pieces, j);
    }
    if Sees(pieces, |pieces| - 1) {
      var i: nat :| i <= |Flatten(pieces)| && SeenBy(pieces, |pieces| - 1, i);
      SeenIsClear(pieces, i);
    }
  }

  lemma ClearIsSeen(pieces: seq<seq<byte>>, j: nat)
    requires pieces != [] && ClearAt(LastWindow(pieces), j)
    ensures Sees(pieces, |pieces| - 1)
  {
    var s, b := Flatten(pieces), Begin(pieces, |pieces| - 1);
    WindowIs(pieces);
    LastPieces(pieces);
    SamePlace(s, b, j);
    OccursFits(s, b + j - INFO_END_LEN);
    hide Flatten, Begin, OccursAt, LastWindow;
    assert SeenBy(pieces, |pieces| - 1, b + j - INFO_END_LEN);
  }

  lemma SeenIsClear(pieces: seq<seq<byte>>, i: nat)
    requires pieces != [] && SeenBy(pieces, |pieces| - 1, i)
    ensures HasClear(LastWindow(pieces))
  {
    var s, b := Flatten(pieces), Begin(pieces, |pieces| - 1);
    WindowIs(pieces);
    LastPieces(pieces);
    SamePlace(s, b, i + INFO_END_LEN - b);
    hide Flatten, Begin, OccursAt, LastWindow, ClearAt;
    assert ClearAt(LastWindow(pieces), i + INFO_END_LEN - b);
  }

  lemma {:induction false} BeginsInside(pieces: seq<seq<byte>>, k: nat)
    requires k <= |pieces|
    ensures Begin(pieces, k) <= |Flatten(pieces)|
  {
    if k < |pieces| {
      BeginsInside(pieces[..|pieces| - 1], k);
      assert pieces[..|pieces| - 1][..k] == pieces[..k];
    } else {
      assert pieces[..k] == pieces;
    }
  }

  /** Earlier reads are not changed by later ones. */
  lemma SeenEarlier(pieces: seq<seq<byte>>, k: nat)
    requires k < |pieces| - 1
    ensures Sees(pieces, k) <==> Sees(pieces[..|pieces| - 1], k)
  {
    var front := pieces[..|pieces| - 1];
    assert front[..k] == pieces[..k] && front[..k + 1] == pieces[..k + 1];
    BeginsInside(front, k + 1);
    BeginsInside(front, k);
    var s, t := Flatten(pieces), Flatten(front);
    assert t <= s;
    forall i: nat ensures SeenBy(pieces, k, i) <==> SeenBy(front, k, i) {
      if i + INFO_END_LEN <= |t| {
        OccursAtFront(t, s, i);
        assert s[..i] == t[..i];
        assert forall m: nat | m <= i :: s[m..i] == t[m..i];
      }
    }
    SeenFits(pieces, k);
    SeenFits(front, k);
  }

  lemma SeenFits(pieces: seq<seq<byte>>, k: nat)
    requires k < |pieces|
    ensures forall i: nat | SeenBy(pieces, k, i) :: i <= |Flatten(pieces)|
  {}

  lemma NextSeen(scan: Scan, s: seq<byte>, data: seq<byte>)
    requires |scan.last| == INFO_END_LEN && KeepsLast(scan, s) && |s| >= INFO_END_LEN
    ensures Next(scan, data).seen <==> scan.seen || Occurs(CString(s[|s| - INFO_END_LEN..] + data))
  {
    hide Occurs, CString;
  }

  lemma LastSearch(pieces: seq<seq<byte>>)
    requires pieces != []
    ensures ScanAll(pieces).seen <==> ScanAll(pieces[..|pieces| - 1]).seen || Occurs(CString(LastWindow(pieces)))
  {
    var front := pieces[..|pieces| - 1];
    ScanKeepsLast(front);
    hide Occurs, CString, Next, KeepsLast;
    NextSeen(ScanAll(front), Dashes() + Flatten(front), pieces[|pieces| - 1]);
  }

  predicate SomeRead(pieces: seq<seq<byte>>) {
    exists k: nat | k < |pieces| :: Sees(pieces, k)
  }

  lemma SomeReadLast(pieces: seq<seq<byte>>)
    requires pieces != []
    ensures SomeRead(pieces) <==> SomeRead(pieces[..|pieces| - 1]) || Sees(pieces, |pieces| - 1)
  {
    hide Sees;
    var front := pieces[..|pieces| - 1];
    forall k: nat | k < |front| ensures Sees(pieces, k) <==> Sees(front, k) {
      SeenEarlier(pieces, k);
    }
    assert Sees(pieces, |pieces| - 1) ==> SomeRead(pieces);
    if SomeRead(front) {
      var k: nat :| k < |front| && Sees(front, k);
      assert Sees(pieces, k);
    }
  }

  /** In every stream, with any bytes and cut in any way: the text is seen if and only if some read
      sees it.  So an occurrence is hidden exactly if in every read whose window holds it (its own
      bytes and the last ones before) a NUL stands before it. */
  lemma {:induction false} SeenExactly(pieces: seq<seq<byte>>)
    ensures ScanAll(pieces).seen <==> SomeRead(pieces)
  {
    hide ScanAll, SomeRead, Sees, Occurs, CString, LastWindow;
    if pieces == [] {
      assert ScanAll(pieces).seen <==> SomeRead(pieces) by { NoReads(); }
    } else {
      SeenExactly(pieces[..|pieces| - 1]);
      LastSees(pieces);
      LastSearch(pieces);
      SomeReadLast(pieces);
    }
  }

  lemma NoReads()
    ensures !ScanAll([]).seen && !SomeRead([])
  {}

  /** A NUL in a read, or among the last bytes kept from before it, hides what comes after it: the
      read sees only text that ends before the NUL, and none at all if the NUL was kept from before. */
  lemma NulHides(pieces: seq<seq<byte>>, k: nat, j: nat)
    requires k < |pieces| && j < |Flatten(pieces)| && Flatten(pieces)[j] == NUL
    requires Begin(pieces, k) - INFO_END_LEN <= j < Begin(pieces, k + 1)
    ensures forall i: nat | SeenBy(pieces, k, i) :: i + INFO_END_LEN <= j
    ensures j < Begin(pieces, k) ==> !Sees(pieces, k)
  {
    var s, from := Flatten(pieces), Max(0, Begin(pieces, k) - INFO_END_LEN);
    forall i: nat | SeenBy(pieces, k, i) ensures i + INFO_END_LEN <= j {
      TextHasNoNul(s, i);
      InSlice(s, from, i, j);
    }
  }

  lemma InSlice(s: seq<byte>, from: nat, i: nat, j: nat)
    ensures from <= j < i <= |s| ==> s[j] in s[from..i]
  {
    if from <= j < i <= |s| {
      assert s[from..i][j - from] == s[j];
    }
  }
}

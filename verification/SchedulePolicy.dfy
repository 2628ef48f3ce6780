/** The order in which a client runs its estimates: what a log of starts and finishes may look
    like, and what follows from that. */
module SchedulePolicy {
  const NO_SPINDLE := -1

  datatype Event = Start(est: nat) | Finish(est: nat)

  function Front(log: seq<Event>): seq<Event>
    requires log != []
  {
    log[..|log| - 1]
  }

  function Last(log: seq<Event>): Event
    requires log != []
  {
    log[|log| - 1]
  }

  function Begun(log: seq<Event>): set<nat> {
    if log == [] then {}
    else Begun(Front(log)) + if Last(log).Start? then {Last(log).est} else {}
  }

  function Running(log: seq<Event>): (r: set<nat>)
    ensures r <= Begun(log)
  {
    if log == [] then {}
    else if Last(log).Start? then Running(Front(log)) + {Last(log).est}
    else Running(Front(log)) - {Last(log).est}
  }

  /** An estimate may not start while another on the same spindle runs. */
  predicate Blocked(spindles: seq<int>, running: set<nat>, i: nat)
    requires i < |spindles|
  {
    spindles[i] != NO_SPINDLE && exists j | j in running && j < |spindles| :: j != i && spindles[j] == spindles[i]
  }

  /** Estimates that have not begun and must wait. */
  predicate AllBlocked(spindles: seq<int>, log: seq<Event>, n: nat)
    requires n <= |spindles|
  {
    forall j | 0 <= j < n && j !in Begun(log) :: Blocked(spindles, Running(log), j)
  }

  /** The first estimate in list order that is not held up starts; a finish is waited for only
      when nothing can start. */
  predicate Allowed(spindles: seq<int>, maxdumps: nat, log: seq<Event>, e: Event) {
    match e
    case Start(i) =>
      && |Running(log)| < maxdumps
      && i < |spindles| && i !in Begun(log)
      && !Blocked(spindles, Running(log), i)
      && AllBlocked(spindles, log, i)
    case Finish(i) =>
      && i in Running(log)
      && (|Running(log)| >= maxdumps || AllBlocked(spindles, log, |spindles|))
  }

  predicate Legal(spindles: seq<int>, maxdumps: nat, log: seq<Event>) {
    log == [] || (Legal(spindles, maxdumps, Front(log)) && Allowed(spindles, maxdumps, Front(log), Last(log)))
  }

  predicate Complete(spindles: seq<int>, log: seq<Event>) {
    Running(log) == {} && forall i: nat | i < |spindles| :: i in Begun(log)
  }

  // ---------- what every legal log keeps ----------

  predicate Exclusive(spindles: seq<int>, running: set<nat>) {
    forall i, j | i in running && j in running && i != j ::
      i < |spindles| && j < |spindles| && (spindles[i] == spindles[j] ==> spindles[i] == NO_SPINDLE)
  }

  lemma {:induction false} LegalPrefix(spindles: seq<int>, maxdumps: nat, log: seq<Event>, k: nat)
    requires Legal(spindles, maxdumps, log) && k <= |log|
    ensures Legal(spindles, maxdumps, log[..k])
  {
    if k == |log| {
      assert log[..k] == log;
    } else {
      LegalPrefix(spindles, maxdumps, Front(log), k);
      assert Front(log)[..k] == log[..k];
    }
  }

  /** At every moment no more than the allowed number run, and no two of them share a spindle. */
  lemma {:induction false} NeverTooMany(spindles: seq<int>, maxdumps: nat, log: seq<Event>)
    requires Legal(spindles, maxdumps, log)
    ensures |Running(log)| <= maxdumps
    ensures Exclusive(spindles, Running(log))
    ensures forall i | i in Begun(log) :: i < |spindles|
  {
    if log != [] {
      NeverTooMany(spindles, maxdumps, Front(log));
    }
  }

  function Count(log: seq<Event>, e: Event): nat {
    if log == [] then 0 else Count(Front(log), e) + if Last(log) == e then 1 else 0
  }

  lemma {:induction false} Counts(spindles: seq<int>, maxdumps: nat, log: seq<Event>, i: nat)
    requires Legal(spindles, maxdumps, log)
    ensures Count(log, Start(i)) == if i in Begun(log) then 1 else 0
    ensures Count(log, Finish(i)) == if i in Begun(log) - Running(log) then 1 else 0
  {
    if log != [] {
      Counts(spindles, maxdumps, Front(log), i);
    }
  }

  /** Once all is done, every estimate has been started once and has finished once. */
  lemma EachOnce(spindles: seq<int>, maxdumps: nat, log: seq<Event>, i: nat)
    requires Legal(spindles, maxdumps, log) && Complete(spindles, log)
    requires i < |spindles|
    ensures Count(log, Start(i)) == 1 && Count(log, Finish(i)) == 1
  {
    Counts(spindles, maxdumps, log, i);
  }

  /** No deadlock: with nothing running and something left to do, an estimate can start. */
  lemma NoDeadlock(spindles: seq<int>, maxdumps: nat, log: seq<Event>)
    requires maxdumps >= 1 && Running(log) == {} && !Complete(spindles, log)
    ensures !AllBlocked(spindles, log, |spindles|)
  {
    var i: nat :| i < |spindles| && i !in Begun(log);
    assert !Blocked(spindles, {}, i);
  }

  /** A log can always go on until it is complete. */
  lemma Progress(spindles: seq<int>, maxdumps: nat, log: seq<Event>)
    requires maxdumps >= 1 && !Complete(spindles, log)
    ensures exists e :: Allowed(spindles, maxdumps, log, e)
  {
    if Running(log) == {} {
      NoDeadlock(spindles, maxdumps, log);
    }
    if Running(log) != {} && (|Running(log)| >= maxdumps || AllBlocked(spindles, log, |spindles|)) {
      var i :| i in Running(log);
      assert Allowed(spindles, maxdumps, log, Finish(i));
    } else {
      var i := FirstFree(spindles, log, |spindles|);
      assert Allowed(spindles, maxdumps, log, Start(i));
    }
  }

  lemma {:induction false} FirstFree(spindles: seq<int>, log: seq<Event>, n: nat) returns (i: nat)
    requires n <= |spindles| && !AllBlocked(spindles, log, n)
    ensures i < n && i !in Begun(log) && !Blocked(spindles, Running(log), i) && AllBlocked(spindles, log, i)
  {
    if AllBlocked(spindles, log, n - 1) {
      i := n - 1;
    } else {
      i := FirstFree(spindles, log, n - 1);
    }
  }

  /** Starts leave no choice: when an estimate can start, nothing else may happen next. */
  lemma OneStart(spindles: seq<int>, maxdumps: nat, log: seq<Event>, e: Event, i: nat)
    requires Allowed(spindles, maxdumps, log, Start(i)) && Allowed(spindles, maxdumps, log, e)
    ensures e == Start(i)
  {}

  // ---------- what a log shows ----------

  lemma OnlyLast(log: seq<Event>, e: Event)
    requires log != []
    ensures e in log <==> e in Front(log) || e == Last(log)
  {
    assert log == Front(log) + [Last(log)];
  }

  lemma {:induction false} NeverFinishedUnstarted(spindles: seq<int>, maxdumps: nat, log: seq<Event>, i: nat)
    requires Legal(spindles, maxdumps, log) && i !in Begun(log)
    ensures Start(i) !in log && Finish(i) !in log
  {
    if log != [] {
      NeverFinishedUnstarted(spindles, maxdumps, Front(log), i);
      OnlyLast(log, Start(i));
      OnlyLast(log, Finish(i));
      hide AllBlocked, Blocked;
    }
  }

  /** An estimate runs from its start to its finish. */
  lemma {:induction false} RunsFromStartToFinish(spindles: seq<int>, maxdumps: nat, log: seq<Event>, i: nat)
    requires Legal(spindles, maxdumps, log)
    ensures i in Begun(log) <==> Start(i) in log
    ensures i in Running(log) <==> Start(i) in log && Finish(i) !in log
  {
    if log != [] {
      RunsFromStartToFinish(spindles, maxdumps, Front(log), i);
      if i !in Begun(Front(log)) {
        NeverFinishedUnstarted(spindles, maxdumps, Front(log), i);
      }
      OnlyLast(log, Start(i));
      OnlyLast(log, Finish(i));
      hide AllBlocked, Blocked;
    }
  }

  lemma LegalAt(spindles: seq<int>, maxdumps: nat, log: seq<Event>, k: nat)
    requires Legal(spindles, maxdumps, log) && k < |log|
    ensures Legal(spindles, maxdumps, log[..k]) && Allowed(spindles, maxdumps, log[..k], log[k])
  {
    LegalPrefix(spindles, maxdumps, log, k + 1);
    assert Front(log[..k + 1]) == log[..k] && Last(log[..k + 1]) == log[k];
    LegalPrefix(spindles, maxdumps, log, k);
  }

  /** An estimate starts only while there is room, and while no running one is on its spindle, if it
      has one; of those that could, the first in the list. */
  lemma StartsInOrder(spindles: seq<int>, maxdumps: nat, log: seq<Event>, k: nat, i: nat)
    requires Legal(spindles, maxdumps, log) && k < |log| && log[k] == Start(i)
    ensures i < |spindles| && Start(i) !in log[..k] && |Running(log[..k])| < maxdumps
    ensures spindles[i] == -1 || forall j | j in Running(log[..k]) :: j < |spindles| && spindles[j] != spindles[i]
    ensures forall h: nat | h < i && Start(h) !in log[..k] ::
      spindles[h] != -1 && exists j | j in Running(log[..k]) :: j != h && j < |spindles| && spindles[j] == spindles[h]
  {
    LegalAt(spindles, maxdumps, log, k);
    NeverTooMany(spindles, maxdumps, log[..k]);
    RunsFromStartToFinish(spindles, maxdumps, log[..k], i);
    forall h: nat | h < i && Start(h) !in log[..k]
      ensures Blocked(spindles, Running(log[..k]), h)
    {
      RunsFromStartToFinish(spindles, maxdumps, log[..k], h);
    }
  }

  /** A finish is waited for only if as many run as may, or if each estimate that has not begun has a
      spindle, not -1, that a running one is on. */
  lemma WaitsForReason(spindles: seq<int>, maxdumps: nat, log: seq<Event>, k: nat)
    requires Legal(spindles, maxdumps, log) && k < |log| && log[k].Finish?
    ensures |Running(log[..k])| == maxdumps
      || forall h: nat | h < |spindles| && Start(h) !in log[..k] ::
           spindles[h] != -1 && exists j | j in Running(log[..k]) :: j != h && j < |spindles| && spindles[j] == spindles[h]
  {
    LegalAt(spindles, maxdumps, log, k);
    NeverTooMany(spindles, maxdumps, log[..k]);
    forall h: nat | h < |spindles| && Start(h) !in log[..k] && |Running(log[..k])| < maxdumps
      ensures Blocked(spindles, Running(log[..k]), h)
    {
      RunsFromStartToFinish(spindles, maxdumps, log[..k], h);
    }
  }

  /** Estimates without spindles start in list order, without a wait, until as many run as may. */
  lemma {:induction false} NoSpindlesNoWait(spindles: seq<int>, maxdumps: nat, log: seq<Event>, k: nat)
    requires Legal(spindles, maxdumps, log) && forall i | 0 <= i < |spindles| :: spindles[i] == -1
    requires k < |log| && k < maxdumps && k < |spindles|
    ensures OnlyStarts(log, k + 1)
  {
    hide *;
    if k == 0 {
      NoStarts(log);
    } else {
      NoSpindlesNoWait(spindles, maxdumps, log, k - 1);
    }
    FirstStarts(log, k);
    LegalAt(spindles, maxdumps, log, k);
    Unhindered(spindles, maxdumps, log[..k], log[k], k);
    MoreStarts(log, k);
  }

  lemma NoStarts(log: seq<Event>)
    ensures OnlyStarts(log, 0)
  {}

  lemma MoreStarts(log: seq<Event>, k: nat)
    requires OnlyStarts(log, k) && k < |log| && log[k] == Start(k)
    ensures OnlyStarts(log, k + 1)
  {}

  /** The first k events are the starts of the first k estimates. */
  predicate OnlyStarts(log: seq<Event>, k: nat) {
    k <= |log| && forall h: nat | h < k :: log[h] == Start(h)
  }

  function Below(k: nat): (s: set<nat>)
    ensures forall i: nat :: i in s <==> i < k
  {
    if k == 0 then {} else Below(k - 1) + {k - 1}
  }

  lemma Unhindered(spindles: seq<int>, maxdumps: nat, log: seq<Event>, e: Event, k: nat)
    requires Allowed(spindles, maxdumps, log, e) && forall i | 0 <= i < |spindles| :: spindles[i] == -1
    requires Begun(log) == Below(k) && |Running(log)| == k < maxdumps && k < |spindles|
    ensures e == Start(k)
  {
    assert !Blocked(spindles, Running(log), k);
    if e.Start? && e.est > k {
      assert false;
    }
  }

  lemma FewerStarts(log: seq<Event>, k: nat)
    requires OnlyStarts(log, k) && k > 0
    ensures OnlyStarts(log, k - 1) && k <= |log| && log[k - 1] == Start(k - 1)
  {}

  lemma {:induction false} FirstStarts(log: seq<Event>, k: nat)
    requires OnlyStarts(log, k)
    ensures Begun(log[..k]) == Running(log[..k]) == Below(k) && |Running(log[..k])| == k
  {
    if k > 0 {
      hide OnlyStarts;
      assert OnlyStarts(log, k - 1) && log[k - 1] == Start(k - 1) by { FewerStarts(log, k); }
      FirstStarts(log, k - 1);
      assert Front(log[..k]) == log[..k - 1] && Last(log[..k]) == Start(k - 1);
      assert Below(k) == Below(k - 1) + {k - 1};
    } else {
      assert log[..0] == [] && Below(0) == {};
    }
  }

  lemma NotYetComplete(spindles: seq<int>, maxdumps: nat, log: seq<Event>)
    requires Legal(spindles, maxdumps, log) && forall i | 0 <= i < |spindles| :: spindles[i] == -1
    requires |log| < maxdumps && |log| < |spindles|
    ensures !Complete(spindles, log)
  {
    if log != [] {
      NoSpindlesNoWait(spindles, maxdumps, log, |log| - 1);
    }
    FirstStarts(log, |log|);
    assert log[..|log|] == log && |log| !in Begun(log);
  }

  /** So a finished run began with the starts of the first estimates, as many as may run. */
  lemma NoSpindlesAtOnce(spindles: seq<int>, maxdumps: nat, log: seq<Event>, h: nat)
    requires Legal(spindles, maxdumps, log) && Complete(spindles, log)
    requires forall i | 0 <= i < |spindles| :: spindles[i] == -1
    requires h < maxdumps && h < |spindles|
    ensures h < |log| && log[h] == Start(h)
  {
    if |log| <= h {
      NotYetComplete(spindles, maxdumps, log);
    } else {
      NoSpindlesNoWait(spindles, maxdumps, log, h);
    }
  }
}

/** The loop that runs a client's estimates in child processes. */
module EstimateScheduler {
  import opened SchedulePolicy

  type Pid = nat

  /** The children of this process.  Which of them is reaped next is up to the system. */
  class Kernel {
    var kids: set<Pid>

    predicate Valid()
      reads this
    {
      forall pid | pid in kids :: pid > 0
    }

    constructor (kids: set<Pid>)
      requires forall pid | pid in kids :: pid > 0
      ensures Valid() && this.kids == kids
    {
      this.kids := kids;
    }

    /** A new child, with a pid that no child has. */
    method Fork() returns (pid: Pid)
      requires Valid()
      modifies this
      ensures Valid() && pid > 0 && pid !in old(kids) && kids == old(kids) + {pid}
    {
      pid := Above(kids);
      kids := kids + {pid};
    }

    /** Blocks until a child has exited, and returns it. */
    method Wait() returns (pid: Pid)
      requires Valid() && kids != {}
      modifies this
      ensures Valid() && pid in old(kids) && kids == old(kids) - {pid}
    {
      pid :| pid in kids;
      kids := kids - {pid};
    }

    static method Above(pids: set<Pid>) returns (pid: Pid)
      ensures pid > 0 && pid !in pids
    {
      pid := 1;
      var rest := pids;
      while rest != {}
        invariant rest <= pids && pid > 0
        invariant forall q | q in pids && q !in rest :: q < pid
      {
        var q :| q in rest;
        if q >= pid { pid := q + 1; }
        rest := rest - {q};
      }
    }
  }

  class Estimate {
    const spindle: int
    var child: Pid
    var done: bool

    constructor (spindle: int)
      ensures this.spindle == spindle && child == 0 && !done
    {
      this.spindle, child, done := spindle, 0, false;
    }
  }

  ghost predicate Distinct(list: seq<Estimate>) {
    forall i, j | 0 <= i < j < |list| :: list[i] != list[j]
  }

  ghost function Spindles(list: seq<Estimate>): (s: seq<int>)
    ensures |s| == |list|
    ensures forall i | 0 <= i < |list| :: s[i] == list[i].spindle
  {
    seq(|list|, i requires 0 <= i < |list| => list[i].spindle)
  }

  ghost function ChildrenOf(list: seq<Estimate>): (s: seq<Pid>)
    reads list
    ensures |s| == |list|
    ensures forall i | 0 <= i < |list| :: s[i] == list[i].child
  {
    seq(|list|, i requires 0 <= i < |list| reads list => list[i].child)
  }

  ghost function DonesOf(list: seq<Estimate>): (s: seq<bool>)
    reads list
    ensures |s| == |list|
    ensures forall i | 0 <= i < |list| :: s[i] == list[i].done
  {
    seq(|list|, i requires 0 <= i < |list| reads list => list[i].done)
  }

  /** The fields are what the log says, and no two estimates have the same child. */
  predicate Agree(children: seq<Pid>, dones: seq<bool>, log: seq<Event>) {
    && |children| == |dones|
    && (forall i | 0 <= i < |children| :: children[i] != 0 <==> i in Running(log))
    && (forall i | 0 <= i < |children| :: dones[i] <==> i in Begun(log) && i !in Running(log))
    && (forall i, j | 0 <= i < j < |children| && children[i] != 0 :: children[i] != children[j])
  }

  ghost predicate Follows(list: seq<Estimate>, log: seq<Event>)
    reads list
  {
    Agree(ChildrenOf(list), DonesOf(list), log)
  }

  lemma FinishAgrees(children: seq<Pid>, dones: seq<bool>, log: seq<Event>, i: nat)
    requires Agree(children, dones, log) && i < |children| && children[i] != 0
    ensures Agree(children[i := 0], dones[i := true], log + [Finish(i)])
  {
    assert Front(log + [Finish(i)]) == log;
  }

  lemma StartAgrees(children: seq<Pid>, dones: seq<bool>, log: seq<Event>, i: nat, pid: Pid)
    requires Agree(children, dones, log) && i < |children| && i !in Begun(log)
    requires pid != 0 && pid !in children
    ensures Agree(children[i := pid], dones, log + [Start(i)])
  {
    assert Front(log + [Start(i)]) == log;
  }

  predicate AllIn(children: seq<Pid>, kids: set<Pid>) {
    forall i | 0 <= i < |children| && children[i] != 0 :: children[i] in kids
  }

  /** Each started, unfinished estimate has a child of its own. */
  ghost predicate Tended(list: seq<Estimate>, log: seq<Event>, kids: set<Pid>)
    reads list
  {
    Follows(list, log) && AllIn(ChildrenOf(list), kids)
  }

  /** The first estimate of the list with that child. */
  method FindChild(list: seq<Estimate>, child: Pid) returns (i: nat)
    ensures i <= |list|
    ensures i < |list| ==> list[i].child == child
    ensures forall j | 0 <= j < i :: list[j].child != child
  {
    i := 0;
    while i < |list| && list[i].child != child
      invariant i <= |list|
      invariant forall j | 0 <= j < i :: list[j].child != child
    {
      i := i + 1;
    }
  }

  /** Whether a started, unfinished estimate other than this one has its spindle. */
  method Conflict(list: seq<Estimate>, i: nat, ghost log: seq<Event>) returns (conflict: bool)
    requires i < |list| && Distinct(list) && Follows(list, log)
    requires forall j | j in Running(log) :: j < |list|
    ensures conflict <==> list[i].spindle != -1 && exists j | j in Running(log) :: j != i && list[j].spindle == list[i].spindle
    ensures conflict == Blocked(Spindles(list), Running(log), i)
  {
    conflict := false;
    if list[i].spindle != NO_SPINDLE {
      var j := 0;
      while j < |list|
        invariant j <= |list|
        invariant forall k | 0 <= k < j && k in Running(log) && k != i :: list[k].spindle != list[i].spindle
      {
        if !(list[j].child == 0 || i == j || list[j].done) && list[j].spindle == list[i].spindle {
          conflict := true;
          return;
        }
        j := j + 1;
      }
    }
  }

  /** The first estimate to start now, and whether the pass saw anything unfinished before it. */
  method Pick(list: seq<Estimate>, ghost log: seq<Event>) returns (i: nat, allDone: bool)
    requires Distinct(list) && Follows(list, log)
    requires forall j | j in Begun(log) :: j < |list|
    ensures i <= |list| && AllBlocked(Spindles(list), log, i)
    ensures i < |list| ==> i !in Begun(log) && !Blocked(Spindles(list), Running(log), i)
    ensures i == |list| ==> (allDone <==> Complete(Spindles(list), log))
  {
    i, allDone := 0, true;
    while i < |list|
      invariant i <= |list| && AllBlocked(Spindles(list), log, i)
      invariant allDone <==> forall j | 0 <= j < i :: list[j].done
    {
      if !list[i].done { allDone := false; }
      if list[i].child == 0 && !list[i].done {
        var conflict := Conflict(list, i, log);
        if !conflict { return; }
      }
      i := i + 1;
    }
  }

  /** A finished child is entered into the list, unless it is none of the list's. */
  method Reap(list: seq<Estimate>, kernel: Kernel, ghost log: seq<Event>) returns (i: nat)
    requires Distinct(list) && Tended(list, log, kernel.kids) && kernel.Valid()
    requires Running(log) != {} && forall j | j in Running(log) :: j < |list|
    modifies list, kernel
    ensures kernel.Valid() && kernel.kids < old(kernel.kids)
    ensures i <= |list|
    ensures i < |list| ==> i in Running(log)
    ensures Tended(list, if i < |list| then log + [Finish(i)] else log, kernel.kids)
  {
    ghost var children, dones, kids := ChildrenOf(list), DonesOf(list), kernel.kids;
    HasChild(children, dones, log, kids);
    hide Agree, AllIn;
    var pid := kernel.Wait();
    i := FindChild(list, pid);
    assert ChildrenOf(list) == children && DonesOf(list) == dones;
    Reaped(children, dones, log, kids, pid, i);
    if i < |list| {
      MarkDone(list, i, log);
    }
  }

  method MarkDone(list: seq<Estimate>, i: nat, ghost log: seq<Event>)
    requires Distinct(list) && Follows(list, log)
    requires i < |list| && list[i].child != 0
    modifies list
    ensures ChildrenOf(list) == old(ChildrenOf(list))[i := 0]
    ensures Follows(list, log + [Finish(i)])
  {
    ghost var children, dones := ChildrenOf(list), DonesOf(list);
    FinishAgrees(children, dones, log, i);
    hide Agree;
    list[i].done := true;
    list[i].child := 0;
    assert ChildrenOf(list) == children[i := 0];
    assert DonesOf(list) == dones[i := true];
  }

  lemma HasChild(children: seq<Pid>, dones: seq<bool>, log: seq<Event>, kids: set<Pid>)
    requires Agree(children, dones, log) && AllIn(children, kids)
    requires Running(log) != {} && forall j | j in Running(log) :: j < |children|
    ensures kids != {}
  {
    var some :| some in Running(log);
    assert children[some] in kids;
  }

  lemma Reaped(children: seq<Pid>, dones: seq<bool>, log: seq<Event>, kids: set<Pid>, pid: Pid, i: nat)
    requires Agree(children, dones, log) && AllIn(children, kids) && pid > 0
    requires i <= |children| && (i < |children| ==> children[i] == pid) && forall j | 0 <= j < i :: children[j] != pid
    ensures i < |children| ==> i in Running(log) && AllIn(children[i := 0], kids - {pid})
    ensures i == |children| ==> AllIn(children, kids - {pid})
  {}

  method Launch(list: seq<Estimate>, i: nat, kernel: Kernel, ghost log: seq<Event>)
    requires Distinct(list) && Tended(list, log, kernel.kids) && kernel.Valid()
    requires i < |list| && i !in Begun(log)
    modifies list, kernel
    ensures Tended(list, log + [Start(i)], kernel.kids) && kernel.Valid()
    ensures |kernel.kids| == |old(kernel.kids)| + 1
  {
    ghost var children, dones, kids := ChildrenOf(list), DonesOf(list), kernel.kids;
    hide Agree;
    var pid := kernel.Fork();
    list[i].child := pid;
    assert ChildrenOf(list) == children[i := pid];
    assert DonesOf(list) == dones;
    StartAgrees(children, dones, log, i, pid);
  }

  ghost function ToBegin(log: seq<Event>, n: nat): set<nat> {
    set i: nat | i < n && i !in Begun(log)
  }

  ghost predicate WaitsRightly(list: seq<Estimate>, maxdumps: nat, log: seq<Event>) {
    Running(log) != {} && (|Running(log)| >= maxdumps || AllBlocked(Spindles(list), log, |list|))
  }

  lemma AfterFinish(spindles: seq<int>, maxdumps: nat, log: seq<Event>, i: nat)
    requires Legal(spindles, maxdumps, log) && i in Running(log)
    requires |Running(log)| >= maxdumps || AllBlocked(spindles, log, |spindles|)
    ensures Legal(spindles, maxdumps, log + [Finish(i)])
    ensures |Running(log + [Finish(i)])| == |Running(log)| - 1
    ensures Begun(log + [Finish(i)]) == Begun(log)
  {
    assert Front(log + [Finish(i)]) == log;
  }

  lemma AfterStart(spindles: seq<int>, maxdumps: nat, log: seq<Event>, i: nat)
    requires Legal(spindles, maxdumps, log) && Allowed(spindles, maxdumps, log, Start(i))
    ensures Legal(spindles, maxdumps, log + [Start(i)])
    ensures |Running(log + [Start(i)])| == |Running(log)| + 1
    ensures |ToBegin(log + [Start(i)], |spindles|)| == |ToBegin(log, |spindles|)| - 1
  {
    assert Front(log + [Start(i)]) == log;
    assert ToBegin(log + [Start(i)], |spindles|) == ToBegin(log, |spindles|) - {i};
  }

  lemma AllDone(list: seq<Estimate>, log: seq<Event>, kids: set<Pid>)
    requires Tended(list, log, kids) && Complete(Spindles(list), log)
    ensures forall i | 0 <= i < |list| :: list[i].child == 0 && list[i].done
  {
    assert forall i: nat | i < |list| :: ChildrenOf(list)[i] == 0 && DonesOf(list)[i];
  }

  lemma Initially(list: seq<Estimate>, maxdumps: nat, kids: set<Pid>)
    requires forall i | 0 <= i < |list| :: list[i].child == 0 && !list[i].done
    ensures Tended(list, [], kids) && Legal(Spindles(list), maxdumps, []) && Running([]) == {}
  {}

  lemma MayStart(spindles: seq<int>, maxdumps: nat, log: seq<Event>, i: nat)
    requires |Running(log)| < maxdumps && i < |spindles| && i !in Begun(log)
    requires !Blocked(spindles, Running(log), i) && AllBlocked(spindles, log, i)
    ensures Allowed(spindles, maxdumps, log, Start(i))
  {}

  /** With nothing to start and nothing running, all is done. */
  lemma NothingLeft(spindles: seq<int>, maxdumps: nat, log: seq<Event>)
    requires maxdumps >= 1 && AllBlocked(spindles, log, |spindles|) && |Running(log)| == 0
    ensures Complete(spindles, log)
  {
    if !Complete(spindles, log) {
      NoDeadlock(spindles, maxdumps, log);
    }
  }

  lemma CompleteIsIdle(spindles: seq<int>, log: seq<Event>)
    requires Complete(spindles, log)
    ensures |Running(log)| == 0
  {}

  /** The first half of a pass: wait for a child, and note which estimate it was. */
  method AwaitChild(list: seq<Estimate>, ghost maxdumps: nat, kernel: Kernel, running: nat, ghost log: seq<Event>)
      returns (running': nat, ghost log': seq<Event>)
    requires Distinct(list) && Tended(list, log, kernel.kids) && kernel.Valid()
    requires Legal(Spindles(list), maxdumps, log) && running == |Running(log)|
    requires WaitsRightly(list, maxdumps, log)
    modifies list, kernel
    ensures Tended(list, log', kernel.kids) && kernel.Valid()
    ensures Legal(Spindles(list), maxdumps, log') && running' == |Running(log')|
    ensures Begun(log') == Begun(log) && |kernel.kids| < |old(kernel.kids)|
  {
    NeverTooMany(Spindles(list), maxdumps, log);
    hide Tended, Legal, AllBlocked, Running, Begun;
    var i := Reap(list, kernel, log);
    running', log' := running, log;
    if i < |list| {
      AfterFinish(Spindles(list), maxdumps, log, i);
      log' := log + [Finish(i)];
      running' := running - 1;
    }
    Fewer(kernel.kids, old(kernel.kids));
  }

  lemma {:induction false} Fewer(x: set<Pid>, y: set<Pid>)
    requires x < y
    ensures |x| < |y|
  {
    var pid :| pid in y && pid !in x;
    SubsetSize(x, y - {pid});
  }

  lemma {:induction false} SubsetSize(x: set<Pid>, y: set<Pid>)
    requires x <= y
    ensures |x| <= |y|
    decreases x
  {
    if x != {} {
      var pid :| pid in x;
      SubsetSize(x - {pid}, y - {pid});
    }
  }

  /** The second half: start one estimate, or see that one must wait, or that all is done. */
  method StartNext(list: seq<Estimate>, maxdumps: nat, kernel: Kernel, running: nat, ghost log: seq<Event>)
      returns (done: bool, needWait: bool, running': nat, ghost log': seq<Event>)
    requires Distinct(list) && Tended(list, log, kernel.kids) && kernel.Valid()
    requires Legal(Spindles(list), maxdumps, log) && running == |Running(log)| && maxdumps >= 1
    modifies list, kernel
    ensures Tended(list, log', kernel.kids) && kernel.Valid()
    ensures Legal(Spindles(list), maxdumps, log') && running' == |Running(log')|
    ensures needWait ==> WaitsRightly(list, maxdumps, log')
    ensures done ==> Complete(Spindles(list), log') && !needWait
    ensures if done || needWait
            then log' == log && kernel.kids == old(kernel.kids)
            else |kernel.kids| == |old(kernel.kids)| + 1 && |ToBegin(log', |list|)| == |ToBegin(log, |list|)| - 1
  {
    ghost var spindles := Spindles(list);
    NeverTooMany(spindles, maxdumps, log);
    hide Legal, Allowed, AllBlocked, Running, Begun, ToBegin, Complete, Exclusive, Agree;
    running', log' := running, log;
    if running >= maxdumps {
      return false, true, running, log;
    }
    var i, allDone := Pick(list, log);
    done := allDone && i == |list|;
    needWait := i == |list| && running > 0;
    if i < |list| {
      Launch(list, i, kernel, log);
      MayStart(spindles, maxdumps, log, i);
      AfterStart(spindles, maxdumps, log, i);
      log' := log + [Start(i)];
      running' := running + 1;
    } else if allDone {
      CompleteIsIdle(spindles, log);
    } else if running == 0 {
      NothingLeft(spindles, maxdumps, log);
    }
  }

  /** Runs every estimate.  It ends when each child does exit at some time (children of others may
      exit in between), and by then has done what the policy allows, to the end. */
  method RunEstimates(list: seq<Estimate>, maxdumps: nat, kernel: Kernel) returns (ghost log: seq<Event>)
    requires Distinct(list) && (forall i | 0 <= i < |list| :: list[i].child == 0 && !list[i].done)
    requires maxdumps >= 1 && kernel.Valid()
    modifies list, kernel
    ensures Legal(Spindles(list), maxdumps, log) && Complete(Spindles(list), log)
    ensures forall i | 0 <= i < |list| :: list[i].child == 0 && list[i].done
  {
    var running, needWait, done := 0, false, false;
    log := [];
    Initially(list, maxdumps, kernel.kids);
    hide Tended, Legal, Running, Begun, Complete, WaitsRightly;
    while !done
      invariant Tended(list, log, kernel.kids) && kernel.Valid()
      invariant Legal(Spindles(list), maxdumps, log) && running == |Running(log)|
      invariant needWait ==> WaitsRightly(list, maxdumps, log)
      invariant done ==> Complete(Spindles(list), log)
      decreases 2 * |ToBegin(log, |list|)| + |kernel.kids|, if done then 0 else if needWait then 1 else 2
    {
      if needWait {
        running, log := AwaitChild(list, maxdumps, kernel, running, log);
      }
      done, needWait, running, log := StartNext(list, maxdumps, kernel, running, log);
    }
    AllDone(list, log, kernel.kids);
  }
}

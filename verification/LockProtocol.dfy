/** The link-based lock as processes that interleave over one directory of lock files.
    Level 0 is the resource's own lock file, level 1 the lock that guards stealing it, and so on. */
module LockProtocol {
  type Pid = nat

  /** Where a process stands.  Read, Probe and Delete at a level are the steps of stealing that
      level's lock file, done while holding the lock of the next level. */
  datatype Phase =
    | Idle
    | TryLink(level: nat)
    | Read(level: nat)
    | Probe(level: nat, owner: Pid)
    | Delete(level: nat)
    | Critical
    /** Unlocking a level: the assertion on the lock file's pid, then the unlink. */
    | Check(level: nat)
    | Remove(level: nat)
    | AssertionFailed
    | Exited

  /** The pid in each lock file that exists, and every process there ever was. */
  datatype State = State(files: map<nat, Pid>, procs: map<Pid, Phase>)

  predicate Alive(s: State, p: Pid) {
    p in s.procs && !s.procs[p].Exited? && !s.procs[p].AssertionFailed?
  }

  function To(s: State, p: Pid, phase: Phase): State {
    s.(procs := s.procs[p := phase])
  }

  /** One step of a process that does not exit. */
  function Act(s: State, p: Pid): State
    requires Alive(s, p)
  {
    match s.procs[p]
    case Idle => To(s, p, TryLink(0))
    case TryLink(l) =>
      if l in s.files then To(s, p, TryLink(l + 1))
      else To(s.(files := s.files[l := p]), p, if l == 0 then Critical else Read(l - 1))
    case Read(l) =>
      if l !in s.files then To(s, p, Check(l + 1))
      else if s.files[l] == p then To(s, p, Delete(l))
      else To(s, p, Probe(l, s.files[l]))
    case Probe(l, q) => To(s, p, if Alive(s, q) then Check(l + 1) else Delete(l))
    case Delete(l) => To(s.(files := s.files - {l}), p, Check(l + 1))
    case Critical => To(s, p, Check(0))
    case Check(l) => To(s, p, if l in s.files && s.files[l] == p then Remove(l) else AssertionFailed)
    case Remove(l) => To(s.(files := s.files - {l}), p, if l == 0 then Idle else TryLink(l - 1))
  }

  /** A lock file that nobody is robbed of when it is deleted: it is there, and it is q's or a
      dead process's. */
  predicate Spare(s: State, l: nat, q: Pid) {
    l in s.files && (s.files[l] == q || !Alive(s, s.files[l]))
  }

  /** No process that has just read q's pid from a lock file, and is about to probe it, is left
      with a lock file that has gone or that is another live process's by now. */
  predicate MayExit(s: State, q: Pid) {
    forall p | p in s.procs && Alive(s, p) && s.procs[p].Probe? && s.procs[p].owner == q ::
      Spare(s, s.procs[p].level, q)
  }

  datatype Event = Acts(pid: Pid) | Exits(pid: Pid)

  function Apply(s: State, e: Event): State
    requires Alive(s, e.pid)
  {
    match e
    case Acts(p) => Act(s, p)
    case Exits(p) => To(s, p, Exited)
  }

  /** At the start nothing is locked, except by processes that are gone. */
  predicate Init(s: State) {
    && (forall p | p in s.procs :: s.procs[p].Idle? || s.procs[p].Exited?)
    && (forall l | l in s.files :: s.files[l] in s.procs && s.procs[s.files[l]].Exited?)
  }

  predicate Possible(s: State, run: seq<Event>)
    decreases |run|
  {
    run != [] ==> Alive(s, run[0].pid) && Possible(Apply(s, run[0]), run[1..])
  }

  /** Runs in which processes exit only when they may. */
  predicate Guarded(s: State, run: seq<Event>)
    requires Possible(s, run)
    decreases |run|
  {
    run != [] ==> (run[0].Exits? ==> MayExit(s, run[0].pid)) && Guarded(Apply(s, run[0]), run[1..])
  }

  function After(s: State, run: seq<Event>): State
    requires Possible(s, run)
    decreases |run|
  {
    if run == [] then s else After(Apply(s, run[0]), run[1..])
  }

  // ---------- who holds what ----------

  predicate Holds(phase: Phase, l: nat) {
    match phase
    case Critical => l == 0
    case Read(k) => l == k + 1
    case Probe(k, q) => l == k + 1
    case Delete(k) => l == k + 1
    case Check(k) => l == k
    case Remove(k) => l == k
    case _ => false
  }

  /** Every lock file is held by its live owner or was left by a dead one. */
  predicate FilesOwned(s: State) {
    forall l | l in s.files :: s.files[l] in s.procs && (Alive(s, s.files[l]) ==> Holds(s.procs[s.files[l]], l))
  }

  ghost predicate HoldersHave(s: State) {
    forall p, l | Alive(s, p) && Holds(s.procs[p], l) :: l in s.files && s.files[l] == p
  }

  /** A stealer that finds the owner dead deletes a file that is that owner's or another dead one's. */
  ghost predicate StealsRightly(s: State) {
    forall p | Alive(s, p) ::
      var phase := s.procs[p];
      && (phase.Probe? ==> phase.owner in s.procs)
      && (phase.Probe? && !Alive(s, phase.owner) ==> Stale(s, phase.level))
      && (phase.Delete? ==> Stale(s, phase.level))
  }

  predicate Stale(s: State, l: nat) {
    l in s.files && !Alive(s, s.files[l])
  }

  predicate NoneFailed(s: State) {
    forall p | p in s.procs :: !s.procs[p].AssertionFailed?
  }

  ghost predicate Inv(s: State) {
    FilesOwned(s) && HoldersHave(s) && StealsRightly(s) && NoneFailed(s)
  }

  lemma InitInv(s: State)
    requires Init(s)
    ensures Inv(s)
  {}

  // ---------- steps keep the invariant ----------

  lemma HolderHas(s: State, p: Pid, l: nat)
    requires Inv(s) && Alive(s, p) && Holds(s.procs[p], l)
    ensures l in s.files && s.files[l] == p
  {}

  /** Phases that only move on, without touching files. */
  lemma MoveInv(s: State, p: Pid, phase: Phase)
    requires Inv(s) && Alive(s, p)
    requires !phase.Exited? && !phase.AssertionFailed?
    requires forall l :: Holds(phase, l) <==> Holds(s.procs[p], l)
    requires phase.Probe? ==> phase.owner in s.procs && (!Alive(s, phase.owner) ==> Stale(s, phase.level))
    requires phase.Delete? ==> Stale(s, phase.level)
    ensures Inv(To(s, p, phase))
  {
    var s' := To(s, p, phase);
    assert forall q :: Alive(s', q) <==> Alive(s, q);
  }

  lemma LinkInv(s: State, p: Pid, l: nat)
    requires Inv(s) && Alive(s, p) && s.procs[p] == TryLink(l) && l !in s.files
    ensures Inv(Act(s, p))
  {
    var s' := Act(s, p);
    assert forall q :: Alive(s', q) <==> Alive(s, q);
    assert forall k :: Holds(s'.procs[p], k) <==> k == l;
  }

  lemma DeleteInv(s: State, p: Pid, l: nat)
    requires Inv(s) && Alive(s, p) && s.procs[p] == Delete(l)
    ensures Inv(Act(s, p))
  {
    var s' := Act(s, p);
    assert forall q :: Alive(s', q) <==> Alive(s, q);
    HolderHas(s, p, l + 1);
    forall q | Alive(s, q) && (s.procs[q].Probe? || s.procs[q].Delete?) && s.procs[q].level == l
      ensures q == p
    {
      HolderHas(s, q, l + 1);
    }
    forall q | Alive(s, q) ensures !Holds(s.procs[q], l) {
      if Holds(s.procs[q], l) { HolderHas(s, q, l); }
    }
    assert forall k :: Holds(s'.procs[p], k) <==> k == l + 1;
  }

  lemma RemoveInv(s: State, p: Pid, l: nat)
    requires Inv(s) && Alive(s, p) && s.procs[p] == Remove(l)
    ensures Inv(Act(s, p))
  {
    var s' := Act(s, p);
    assert forall q :: Alive(s', q) <==> Alive(s, q);
    HolderHas(s, p, l);
    forall q | Alive(s, q) && q != p ensures !Holds(s.procs[q], l) {
      if Holds(s.procs[q], l) { HolderHas(s, q, l); }
    }
    assert forall k :: !Holds(s'.procs[p], k);
  }

  lemma ExitInv(s: State, p: Pid)
    requires Inv(s) && Alive(s, p) && MayExit(s, p)
    ensures Inv(To(s, p, Exited))
  {
    var s' := To(s, p, Exited);
    assert forall q | q != p :: Alive(s', q) <==> Alive(s, q);
  }

  /** The branch for finding one's own pid is never taken: nobody locks twice. */
  lemma NotOwn(s: State, p: Pid, l: nat)
    requires Inv(s) && Alive(s, p) && l in s.files && !Holds(s.procs[p], l)
    ensures s.files[l] != p
  {}

  lemma ReadInv(s: State, p: Pid, l: nat)
    requires Inv(s) && Alive(s, p) && s.procs[p] == Read(l)
    ensures Inv(Act(s, p))
  {
    if l !in s.files {
      MoveInv(s, p, Check(l + 1));
    } else {
      NotOwn(s, p, l);
      MoveInv(s, p, Probe(l, s.files[l]));
    }
  }

  lemma ProbeInv(s: State, p: Pid, l: nat, q: Pid)
    requires Inv(s) && Alive(s, p) && s.procs[p] == Probe(l, q)
    ensures Inv(Act(s, p))
  {
    MoveInv(s, p, if Alive(s, q) then Check(l + 1) else Delete(l));
  }

  lemma CheckInv(s: State, p: Pid, l: nat)
    requires Inv(s) && Alive(s, p) && s.procs[p] == Check(l)
    ensures Inv(Act(s, p))
  {
    HolderHas(s, p, l);
    MoveInv(s, p, Remove(l));
  }

  lemma StepInv(s: State, e: Event)
    requires Inv(s) && Alive(s, e.pid) && (e.Exits? ==> MayExit(s, e.pid))
    ensures Inv(Apply(s, e))
  {
    hide Inv, MayExit, Holds;
    var p := e.pid;
    if e.Exits? {
      ExitInv(s, p);
    } else {
      match s.procs[p]
      case TryLink(l) => TryInv(s, p, l);
      case Read(l) => ReadInv(s, p, l);
      case Probe(l, q) => ProbeInv(s, p, l, q);
      case Delete(l) => DeleteInv(s, p, l);
      case Check(l) => CheckInv(s, p, l);
      case Remove(l) => RemoveInv(s, p, l);
      case Idle => BeginInv(s, p);
      case Critical => BeginInv(s, p);
    }
  }

  lemma TryInv(s: State, p: Pid, l: nat)
    requires Inv(s) && Alive(s, p) && s.procs[p] == TryLink(l)
    ensures Inv(Act(s, p))
  {
    if l in s.files {
      MoveInv(s, p, TryLink(l + 1));
    } else {
      LinkInv(s, p, l);
    }
  }

  lemma BeginInv(s: State, p: Pid)
    requires Inv(s) && Alive(s, p) && (s.procs[p].Idle? || s.procs[p].Critical?)
    ensures Inv(Act(s, p))
  {
    MoveInv(s, p, if s.procs[p].Idle? then TryLink(0) else Check(0));
  }

  lemma {:induction false} RunInv(s: State, run: seq<Event>)
    requires Inv(s) && Possible(s, run) && Guarded(s, run)
    ensures Inv(After(s, run))
    decreases |run|
  {
    hide Inv, Apply;
    if run != [] {
      StepInv(s, run[0]);
      RunInv(Apply(s, run[0]), run[1..]);
    }
  }

  // ---------- the theorems ----------

  /** Mutual exclusion at every level in every run: two live processes never hold the same lock.
      In particular at most one is in its critical section. */
  lemma MutualExclusion(s: State, run: seq<Event>, p: Pid, q: Pid, l: nat)
    requires Init(s) && Possible(s, run) && Guarded(s, run)
    requires Alive(After(s, run), p) && Alive(After(s, run), q)
    requires Holds(After(s, run).procs[p], l) && Holds(After(s, run).procs[q], l)
    ensures p == q
  {
    InitInv(s);
    RunInv(s, run);
    HolderHas(After(s, run), p, l);
    HolderHas(After(s, run), q, l);
  }

  /** The assertion in the unlock path holds in every run. */
  lemma UnlockNeverFails(s: State, run: seq<Event>, p: Pid)
    requires Init(s) && Possible(s, run) && Guarded(s, run)
    requires p in After(s, run).procs
    ensures !After(s, run).procs[p].AssertionFailed?
  {
    InitInv(s);
    RunInv(s, run);
  }

  /** In every run, no step but its own takes a live process's lock away. */
  lemma OnlyDeadAreRobbed(s: State, run: seq<Event>, e: Event, l: nat)
    requires Init(s) && Possible(s, run) && Guarded(s, run) && Alive(After(s, run), e.pid)
    requires var s1 := After(s, run); l in s1.files && Alive(s1, s1.files[l]) && s1.files[l] != e.pid
    ensures var s1 := After(s, run); l in Apply(s1, e).files && Apply(s1, e).files[l] == s1.files[l]
  {
    InitInv(s);
    RunInv(s, run);
    StepSpares(After(s, run), e, l);
  }

  lemma StepSpares(s: State, e: Event, l: nat)
    requires Inv(s) && Alive(s, e.pid)
    requires l in s.files && Alive(s, s.files[l]) && s.files[l] != e.pid
    ensures l in Apply(s, e).files && Apply(s, e).files[l] == s.files[l]
  {
    if e.Acts? && s.procs[e.pid].Remove? {
      HolderHas(s, e.pid, s.procs[e.pid].level);
    }
    assert e.Acts? && s.procs[e.pid].Delete? ==> s.procs[e.pid].level != l;
    assert e.Acts? ==> Apply(s, e).files == Act(s, e.pid).files;
  }

  // ---------- why processes may not exit at any time ----------

  predicate Reaches(s: State, run: seq<Event>, t: State) {
    Possible(s, run) && After(s, run) == t
  }

  /** The same process takes n steps in a row. */
  function Steps(p: Pid, n: nat): seq<Event> {
    seq(n, i => Acts(p))
  }

  /** Exclusion has failed: two live processes hold the lock of one level. */
  predicate TwoHold(s: State, p: Pid, r: Pid, l: nat) {
    p != r && Alive(s, p) && Alive(s, r) && Holds(s.procs[p], l) && Holds(s.procs[r], l)
  }

  /** A process has locked a level: its own lock, or one that lets it steal the level below. */
  function Locked(s: State, p: Pid, l: nat): State {
    State(s.files[l := p], s.procs[p := if l == 0 then Critical else Read(l - 1)])
  }

  /** The steps of a process that probes a dead process while the lock file is a live one's: it
      deletes that file, unlocks the level above, and takes the lock itself. */
  function Robbery(s: State, p: Pid, l: nat): State {
    Locked(s.(files := s.files - {l, l + 1}), p, l)
  }

  lemma RobberySteps(s: State, p: Pid, q: Pid, l: nat)
    requires Alive(s, p) && !Alive(s, q) && s.procs[p] == Probe(l, q)
    requires l + 1 in s.files && s.files[l + 1] == p
    ensures Reaches(s, Steps(p, 5), Robbery(s, p, l))
  {
    hide Possible, After, Steps;
    var s1 := To(s, p, Delete(l));
    var s2 := To(s1.(files := s1.files - {l}), p, Check(l + 1));
    var s3 := To(s2, p, Remove(l + 1));
    var s4 := To(s3.(files := s3.files - {l + 1}), p, TryLink(l));
    One(s, Acts(p));
    var run, t := Next(s, [Acts(p)], s1, Acts(p));
    assert t == s2;
    run, t := Next(s, run, s2, Acts(p));
    run, t := Next(s, run, s3, Acts(p));
    assert t == s4;
    run, t := Next(s, run, s4, Acts(p));
    assert t.files == Robbery(s, p, l).files;
    assert t.procs == Robbery(s, p, l).procs;
    assert run == Steps(p, 5) by { FiveSteps(p); }
  }

  lemma FiveSteps(p: Pid)
    ensures Steps(p, 5) == [Acts(p), Acts(p), Acts(p), Acts(p), Acts(p)]
  {}

  /** The run in which q exits and p robs. */
  function RobbingRun(p: Pid, q: Pid): seq<Event> {
    [Exits(q)] + Steps(p, 5)
  }

  /** Wherever a probed process exits although the lock file is another live process's by now, five
      steps of the stealer make it hold that lock too. */
  lemma UnguardedExitRobs(s: State, p: Pid, q: Pid, l: nat)
    requires Inv(s) && Alive(s, p) && Alive(s, q) && p != q && s.procs[p] == Probe(l, q)
    requires l in s.files && s.files[l] != q && Alive(s, s.files[l])
    ensures !MayExit(s, q)
    ensures Possible(s, RobbingRun(p, q)) && TwoHold(After(s, RobbingRun(p, q)), p, s.files[l], l)
  {
    var r := s.files[l];
    NotOwn(s, p, l);
    OwnerHolds(s, l);
    HolderHas(s, p, l + 1);
    assert !MayExit(s, q) by { NotGuarded(s, p, q, l); }
    hide Inv, MayExit, Possible, After;
    var s1 := To(s, q, Exited);
    One(s, Exits(q));
    RobberySteps(s1, p, q, l);
    RunOn(s, [Exits(q)], Steps(p, 5));
  }

  lemma NotGuarded(s: State, p: Pid, q: Pid, l: nat)
    requires Alive(s, p) && s.procs[p] == Probe(l, q) && !Spare(s, l, q)
    ensures !MayExit(s, q)
  {}

  lemma OwnerHolds(s: State, l: nat)
    requires Inv(s) && l in s.files && Alive(s, s.files[l])
    ensures Holds(s.procs[s.files[l]], l)
  {}

  /** All locks from level m up to below level l are taken. */
  predicate TakenBelow(s: State, m: nat, l: nat) {
    forall k | m <= k < l :: k in s.files
  }

  /** A process climbs past the locks that are taken and takes the first that is not. */
  lemma {:induction false} Climb(s: State, r: Pid, m: nat, l: nat)
    requires m <= l && Alive(s, r) && s.procs[r] == TryLink(m) && TakenBelow(s, m, l) && l !in s.files
    ensures Reaches(s, Steps(r, l - m + 1), Locked(s, r, l))
    decreases l - m
  {
    hide Possible, After, Steps;
    StepsFirst(r, l - m);
    One(s, Acts(r));
    var s1 := Act(s, r);
    if m < l {
      assert TakenBelow(s1, m + 1, l);
      Climb(s1, r, m + 1, l);
      RunOn(s, [Acts(r)], Steps(r, l - m));
      assert Locked(s1, r, l) == Locked(s, r, l);
    } else {
      NoSteps(r);
      assert [Acts(r)] + [] == [Acts(r)];
    }
  }

  lemma StepsFirst(p: Pid, n: nat)
    ensures Steps(p, n + 1) == [Acts(p)] + Steps(p, n)
  {}

  lemma NoSteps(p: Pid)
    ensures Steps(p, 0) == []
  {}

  /** The run in which q exits, r climbs from level m and locks level l, and p robs. */
  function LateRobbingRun(p: Pid, q: Pid, r: Pid, m: nat, l: nat): seq<Event>
    requires m <= l
  {
    [Exits(q)] + (Steps(r, l - m + 1) + Steps(p, 5))
  }

  /** Wherever a probed process exits although the lock file has gone, at whatever level, any third
      process on its way to that lock ends up holding it together with the stealer. */
  lemma AbsentFileRobs(s: State, p: Pid, q: Pid, r: Pid, m: nat, l: nat)
    requires Inv(s) && Alive(s, p) && Alive(s, q) && p != q && s.procs[p] == Probe(l, q) && l !in s.files
    requires m <= l && Alive(s, r) && r != p && r != q && s.procs[r] == TryLink(m) && TakenBelow(s, m, l)
    ensures !MayExit(s, q)
    ensures var run := LateRobbingRun(p, q, r, m, l); Possible(s, run) && TwoHold(After(s, run), p, r, l)
  {
    HolderHas(s, p, l + 1);
    NotGuarded(s, p, q, l);
    var s1 := To(s, q, Exited);
    One(s, Exits(q));
    LateRobbery(s1, p, q, r, m, l);
    hide *;
    RunOn(s, [Exits(q)], Steps(r, l - m + 1) + Steps(p, 5));
  }

  lemma LateRobbery(s: State, p: Pid, q: Pid, r: Pid, m: nat, l: nat)
    requires Alive(s, p) && !Alive(s, q) && s.procs[p] == Probe(l, q) && l !in s.files
    requires l + 1 in s.files && s.files[l + 1] == p
    requires m <= l && Alive(s, r) && r != p && s.procs[r] == TryLink(m) && TakenBelow(s, m, l)
    ensures Possible(s, Steps(r, l - m + 1) + Steps(p, 5))
    ensures TwoHold(After(s, Steps(r, l - m + 1) + Steps(p, 5)), p, r, l)
  {
    hide Possible, After, Steps;
    Climb(s, r, m, l);
    RobberySteps(Locked(s, r, l), p, q, l);
    RunOn(s, Steps(r, l - m + 1), Steps(p, 5));
  }

  lemma {:induction false} RunOn(s: State, x: seq<Event>, y: seq<Event>)
    requires Possible(s, x) && Possible(After(s, x), y)
    ensures Possible(s, x + y) && After(s, x + y) == After(After(s, x), y)
    decreases |x|
  {
    hide Apply, Alive;
    if x == [] {
      assert x + y == y;
    } else {
      assert (x + y)[1..] == x[1..] + y;
      RunOn(Apply(s, x[0]), x[1..], y);
    }
  }

  lemma One(s: State, e: Event)
    requires Alive(s, e.pid)
    ensures Possible(s, [e]) && After(s, [e]) == Apply(s, e)
  {}

  /** The run goes on with one more event. */
  lemma Next(s: State, run: seq<Event>, t: State, e: Event) returns (run': seq<Event>, t': State)
    requires Possible(s, run) && After(s, run) == t && Alive(t, e.pid)
    ensures run' == run + [e] && t' == Apply(t, e)
    ensures Possible(s, run') && After(s, run') == t'
  {
    One(t, e);
    RunOn(s, run, [e]);
    run', t' := run + [e], Apply(t, e);
  }

  lemma TwoProbesOne(s: State) returns (run: seq<Event>)
    requires s == State(map[], map[1 := Idle, 2 := Idle, 3 := Idle])
    ensures Reaches(s, run, State(map[0 := 1, 1 := 2], map[1 := Critical, 2 := Probe(0, 1), 3 := Idle]))
  {
    hide Possible, After;
    var t := s;
    run := [];
    assert Reaches(s, run, t) by { Stay(s); }
    run, t := Next(s, run, t, Acts(1));
    run, t := Next(s, run, t, Acts(1));
    assert t == State(map[0 := 1], map[1 := Critical, 2 := Idle, 3 := Idle]);
    run, t := Next(s, run, t, Acts(2));
    run, t := Next(s, run, t, Acts(2));
    run, t := Next(s, run, t, Acts(2));
    assert t == State(map[0 := 1, 1 := 2], map[1 := Critical, 2 := Read(0), 3 := Idle]);
    run, t := Next(s, run, t, Acts(2));
  }

  lemma Stay(s: State)
    ensures Reaches(s, [], s)
  {}

  lemma OneUnlocks(s: State, run0: seq<Event>) returns (run: seq<Event>)
    requires Reaches(s, run0, State(map[0 := 1, 1 := 2], map[1 := Critical, 2 := Probe(0, 1), 3 := Idle]))
    ensures Reaches(s, run, State(map[1 := 2], map[1 := Idle, 2 := Probe(0, 1), 3 := Idle]))
  {
    hide Possible, After;
    var t := State(map[0 := 1, 1 := 2], map[1 := Critical, 2 := Probe(0, 1), 3 := Idle]);
    run := run0;
    run, t := Next(s, run, t, Acts(1));
    assert t == State(map[0 := 1, 1 := 2], map[1 := Check(0), 2 := Probe(0, 1), 3 := Idle]);
    run, t := Next(s, run, t, Acts(1));
    assert t == State(map[0 := 1, 1 := 2], map[1 := Remove(0), 2 := Probe(0, 1), 3 := Idle]);
    run, t := Next(s, run, t, Acts(1));
  }

  lemma OneExits(s: State, run0: seq<Event>) returns (run: seq<Event>)
    requires Reaches(s, run0, State(map[1 := 2], map[1 := Idle, 2 := Probe(0, 1), 3 := Idle]))
    ensures Reaches(s, run, State(map[1 := 2], map[1 := Exited, 2 := Probe(0, 1), 3 := TryLink(0)]))
  {
    hide Possible, After;
    var t := State(map[1 := 2], map[1 := Idle, 2 := Probe(0, 1), 3 := Idle]);
    run := run0;
    run, t := Next(s, run, t, Exits(1));
    assert t == State(map[1 := 2], map[1 := Exited, 2 := Probe(0, 1), 3 := Idle]);
    run, t := Next(s, run, t, Acts(3));
  }

  /** Without the guard three processes are enough to have two in the critical section: process 1
      unlocks and exits, and 3 locks, while 2 is about to probe 1. */
  lemma TwoInside() returns (s: State, run: seq<Event>)
    ensures Init(s) && Possible(s, run) && !Guarded(s, run)
    ensures s.procs.Keys == {1, 2, 3} && TwoHold(After(s, run), 2, 3, 0)
  {
    s := State(map[], map[1 := Idle, 2 := Idle, 3 := Idle]);
    run := TwoProbesOne(s);
    run := OneUnlocks(s, run);
    run := OneExits(s, run);
    LateRobbery(After(s, run), 2, 1, 3, 0, 0);
    RunOn(s, run, Steps(3, 1) + Steps(2, 5));
    run := run + (Steps(3, 1) + Steps(2, 5));
    if Guarded(s, run) {
      MutualExclusion(s, run, 2, 3, 0);
    }
  }
}

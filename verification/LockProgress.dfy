/** What a process that wants a lock gets when the others leave it alone: stale locks are stolen, at
    every level, and nothing else is. */
module LockProgress {
  import opened LockProtocol

  /** The steps that take a lock with d stale ones in the way. */
  function TakingRun(p: Pid, d: nat): seq<Event> {
    Steps(p, 7 * d + 1)
  }

  /** The levels from l up to, but without, m. */
  function Between(l: nat, m: nat): (r: set<nat>)
    ensures forall k: nat :: k in r <==> l <= k < m
    decreases m
  {
    if m <= l then {} else Between(l, m - 1) + {m - 1}
  }

  /** The lock files from level l up to level m are there, and dead processes'. */
  predicate StaleBelow(s: State, l: nat, m: nat) {
    forall k | l <= k < m :: k in s.files && !Alive(s, s.files[k])
  }

  lemma StepsAdd(p: Pid, m: nat, n: nat)
    ensures Steps(p, m + n) == Steps(p, m) + Steps(p, n)
  {}

  lemma ReachesOn(s: State, x: seq<Event>, t: State, y: seq<Event>, u: State)
    requires Reaches(s, x, t) && Reaches(t, y, u)
    ensures Reaches(s, x + y, u)
  {
    RunOn(s, x, y);
  }

  lemma OneStep(s: State, p: Pid)
    requires Alive(s, p)
    ensures Reaches(s, Steps(p, 1), Act(s, p))
  {
    One(s, Acts(p));
    assert Steps(p, 1) == [Acts(p)];
  }

  /** A process that holds level l + 1, and is about to read a dead process's pid from the lock file
      of level l, has that lock six steps later, and level l + 1 is free. */
  lemma StealsStale(s: State, p: Pid, l: nat)
    requires Alive(s, p) && s.procs[p] == Read(l) && l in s.files && !Alive(s, s.files[l])
    requires l + 1 in s.files && s.files[l + 1] == p
    ensures Reaches(s, Steps(p, 6), Robbery(s, p, l))
  {
    var s1 := To(s, p, Probe(l, s.files[l]));
    OneStep(s, p);
    RobberySteps(s1, p, s.files[l], l);
    StepsAdd(p, 1, 5);
    hide Possible, After, Steps;
    ReachesOn(s, Steps(p, 1), s1, Steps(p, 5), Robbery(s1, p, l));
    assert Robbery(s1, p, l) == Robbery(s, p, l);
  }

  /** From a level that it has locked, a process steals its way down through stale locks. */
  lemma {:induction false} Descend(s: State, p: Pid, l: nat, m: nat)
    requires l <= m && Alive(s, p) && m !in s.files && StaleBelow(s, l, m)
    ensures Reaches(Locked(s, p, m), Steps(p, 6 * (m - l)), Locked(s.(files := s.files - Between(l, m)), p, l))
    decreases m - l
  {
    hide Possible, After, Steps;
    if m == l {
      NoSteps(p);
      assert s.files - Between(l, l) == s.files;
      assert Reaches(Locked(s, p, m), [], Locked(s, p, m)) by { Stay(Locked(s, p, m)); }
    } else {
      var t := Locked(s, p, m);
      StealsStale(t, p, m - 1);
      var s1 := s.(files := s.files - {m - 1});
      Descend(s1, p, l, m - 1);
      assert Robbery(t, p, m - 1) == Locked(s1, p, m - 1) by { RobbedIsLocked(s, p, m); }
      assert s1.files - Between(l, m - 1) == s.files - Between(l, m);
      StepsAdd(p, 6, 6 * (m - 1 - l));
      ReachesOn(t, Steps(p, 6), Locked(s1, p, m - 1), Steps(p, 6 * (m - 1 - l)), Locked(s.(files := s.files - Between(l, m)), p, l));
    }
  }

  lemma RobbedIsLocked(s: State, p: Pid, m: nat)
    requires m > 0 && Alive(s, p) && m !in s.files
    ensures Robbery(Locked(s, p, m), p, m - 1) == Locked(s.(files := s.files - {m - 1}), p, m - 1)
  {
    var x, y := Robbery(Locked(s, p, m), p, m - 1), Locked(s.(files := s.files - {m - 1}), p, m - 1);
    assert x.files == y.files && x.procs == y.procs;
  }

  /** Whatever dead processes have left behind, from the wanted level up to the first free one, is
      stolen: the wanted lock is the process's own then, and the others are gone. */
  lemma StaleTaken(s: State, p: Pid, l: nat, m: nat)
    requires l <= m && Alive(s, p) && s.procs[p] == TryLink(l) && m !in s.files && StaleBelow(s, l, m)
    ensures Reaches(s, TakingRun(p, m - l), Locked(s.(files := s.files - Between(l, m)), p, l))
  {
    Climb(s, p, l, m);
    Descend(s, p, l, m);
    StepsAdd(p, m - l + 1, 6 * (m - l));
    hide Possible, After, Steps;
    ReachesOn(s, Steps(p, m - l + 1), Locked(s, p, m), Steps(p, 6 * (m - l)), Locked(s.(files := s.files - Between(l, m)), p, l));
  }

  // ---------- exactly when a process gets the lock ----------

  /** Running alone, the process comes to hold level l. */
  ghost predicate CanTake(s: State, p: Pid, l: nat) {
    exists n: nat :: Possible(s, Steps(p, n)) && p in After(s, Steps(p, n)).procs && Holds(After(s, Steps(p, n)).procs[p], l)
  }

  /** A process on its way to level l: about to link it, or stealing it; at level 0 from the start. */
  predicate OnItsWay(phase: Phase, l: nat) {
    (phase == Idle && l == 0) || phase == TryLink(l) || phase == Read(l) || (phase.Probe? && phase.level == l) || phase == Delete(l)
    || phase == Check(l + 1) || phase == Remove(l + 1)
  }

  /** A live process holds level k, and no level from l up to it is free or p's. */
  predicate InWay(s: State, p: Pid, l: nat, k: nat) {
    l <= k && (forall j | l <= j <= k :: j in s.files && s.files[j] != p) && Alive(s, s.files[k])
  }

  ghost predicate Clear(s: State, p: Pid, l: nat) {
    forall k: nat :: !InWay(s, p, l, k)
  }

  function LevelsFrom(s: State, l: nat): set<nat> {
    set k | k in s.files && k >= l
  }

  lemma {:induction false} FirstFree(s: State, l: nat) returns (m: nat)
    ensures m >= l && m !in s.files && TakenBelow(s, l, m)
    decreases LevelsFrom(s, l)
  {
    m := l;
    if l in s.files {
      assert l in LevelsFrom(s, l) && l !in LevelsFrom(s, l + 1);
      m := FirstFree(s, l + 1);
    }
  }

  lemma OwnsNone(s: State, p: Pid, l: nat, k: nat)
    requires Inv(s) && Alive(s, p) && s.procs[p] == TryLink(l) && k in s.files
    ensures s.files[k] != p
  {}

  lemma LinkTakes(s: State, p: Pid, l: nat)
    requires Inv(s) && Alive(s, p) && s.procs[p] == TryLink(l) && Clear(s, p, l)
    ensures CanTake(s, p, l)
  {
    var m := FirstFree(s, l);
    forall k | l <= k < m ensures k in s.files && !Alive(s, s.files[k]) {
      forall j | l <= j <= k ensures j in s.files && s.files[j] != p {
        OwnsNone(s, p, l, j);
      }
      assert !InWay(s, p, l, k);
    }
    StaleTaken(s, p, l, m);
    hide Possible, After, Steps, Inv;
    Held(s, p, l, 7 * (m - l) + 1, s.(files := s.files - Between(l, m)));
  }

  lemma Held(s: State, p: Pid, l: nat, n: nat, t: State)
    requires Reaches(s, Steps(p, n), Locked(t, p, l))
    ensures CanTake(s, p, l)
  {
    hide Possible, After, Steps;
    assert After(s, Steps(p, n)) == Locked(t, p, l);
    assert Holds(Locked(t, p, l).procs[p], l);
  }

  lemma StepThenTakes(s: State, p: Pid, l: nat)
    requires Alive(s, p) && CanTake(Act(s, p), p, l)
    ensures CanTake(s, p, l)
  {
    var s1 := Act(s, p);
    hide Possible, After, Steps, Act, Holds;
    var n: nat :| Possible(s1, Steps(p, n)) && p in After(s1, Steps(p, n)).procs && Holds(After(s1, Steps(p, n)).procs[p], l);
    One(s, Acts(p));
    StepsFirst(p, n);
    assert Apply(s, Acts(p)) == s1;
    RunOn(s, [Acts(p)], Steps(p, n));
    assert After(s, Steps(p, n + 1)) == After(s1, Steps(p, n));
  }

  /** The level above is let go of, and then the lock is tried for again. */
  lemma RemoveTakes(s: State, p: Pid, l: nat)
    requires Inv(s) && Alive(s, p) && s.procs[p] == Remove(l + 1) && Clear(s, p, l)
    ensures CanTake(s, p, l)
  {
    var s1 := Act(s, p);
    assert s1.procs[p] == TryLink(l) && l + 1 !in s1.files;
    forall k: nat ensures !InWay(s1, p, l, k) {
      if k == l {
        assert !InWay(s, p, l, l);
      } else {
        assert k >= l ==> l <= l + 1 <= k;
      }
    }
    StepInv(s, Acts(p));
    hide Inv;
    LinkTakes(s1, p, l);
    StepThenTakes(s, p, l);
  }

  lemma CheckTakes(s: State, p: Pid, l: nat)
    requires Inv(s) && Alive(s, p) && s.procs[p] == Check(l + 1) && Clear(s, p, l)
    ensures CanTake(s, p, l)
  {
    HolderHas(s, p, l + 1);
    var s1 := Act(s, p);
    SameWay(s, s1, p, l);
    StepInv(s, Acts(p));
    hide Inv;
    RemoveTakes(s1, p, l);
    StepThenTakes(s, p, l);
  }

  /** A step that frees no lock but perhaps one that the process steals puts nothing in the way. */
  lemma SameWay(s: State, s1: State, p: Pid, l: nat)
    requires Clear(s, p, l) && Alive(s1, p) && (s1.files == s.files || s1.files == s.files - {l})
    requires forall q | q != p :: Alive(s1, q) <==> Alive(s, q)
    ensures Clear(s1, p, l)
  {
    forall k: nat ensures !InWay(s1, p, l, k) {
      assert !InWay(s, p, l, k);
    }
  }

  /** Any other step on the way, after which the level above is let go of. */
  lemma StealTakes(s: State, p: Pid, l: nat)
    requires Inv(s) && Alive(s, p) && (s.procs[p] == Delete(l) || (s.procs[p].Probe? && s.procs[p].level == l)) && Clear(s, p, l)
    ensures CanTake(s, p, l)
    decreases if s.procs[p].Probe? then 1 else 0
  {
    var s1 := Act(s, p);
    assert forall q :: Alive(s1, q) <==> Alive(s, q);
    SameWay(s, s1, p, l);
    StepInv(s, Acts(p));
    hide Inv, Clear;
    if s1.procs[p] == Delete(l) {
      StealTakes(s1, p, l);
    } else {
      CheckTakes(s1, p, l);
    }
    StepThenTakes(s, p, l);
  }

  lemma ReadTakes(s: State, p: Pid, l: nat)
    requires Inv(s) && Alive(s, p) && s.procs[p] == Read(l) && Clear(s, p, l)
    ensures CanTake(s, p, l)
  {
    var s1 := Act(s, p);
    assert forall q :: Alive(s1, q) <==> Alive(s, q);
    SameWay(s, s1, p, l);
    StepInv(s, Acts(p));
    hide Inv, Clear;
    if s1.procs[p] == Check(l + 1) {
      CheckTakes(s1, p, l);
    } else {
      StealTakes(s1, p, l);
    }
    StepThenTakes(s, p, l);
  }

  lemma IdleTakes(s: State, p: Pid)
    requires Inv(s) && Alive(s, p) && s.procs[p] == Idle && Clear(s, p, 0)
    ensures CanTake(s, p, 0)
  {
    var s1 := Act(s, p);
    SameWay(s, s1, p, 0);
    StepInv(s, Acts(p));
    hide Inv, Clear;
    LinkTakes(s1, p, 0);
    StepThenTakes(s, p, 0);
  }

  lemma ClearTakes(s: State, p: Pid, l: nat)
    requires Inv(s) && Alive(s, p) && OnItsWay(s.procs[p], l) && Clear(s, p, l)
    ensures CanTake(s, p, l)
  {
    hide Inv, Clear, CanTake;
    match s.procs[p]
    case Idle => IdleTakes(s, p);
    case TryLink(_) => LinkTakes(s, p, l);
    case Read(_) => ReadTakes(s, p, l);
    case Check(_) => CheckTakes(s, p, l);
    case Remove(_) => RemoveTakes(s, p, l);
    case _ => StealTakes(s, p, l);
  }

  /** The process stays above the live holder of level v. */
  ghost predicate Barred(s: State, p: Pid, l: nat, v: nat) {
    && Inv(s) && Alive(s, p) && InWay(s, p, l, v)
    && match s.procs[p]
       case Idle => l == 0
       case TryLink(j) => j >= l
       case Read(j) => j >= v
       case Probe(j, _) => j >= v
       case Delete(j) => j > v
       case Check(j) => j > v
       case Remove(j) => j > v
       case _ => false
  }

  lemma BarredStep(s: State, p: Pid, l: nat, v: nat)
    requires Barred(s, p, l, v)
    ensures Barred(Act(s, p), p, l, v)
  {
    var s1 := Act(s, p);
    StepInv(s, Acts(p));
    if s.procs[p].Check? {
      HolderHas(s, p, s.procs[p].level);
    }
    assert Alive(s1, p) && forall q | q != p :: Alive(s1, q) <==> Alive(s, q);
    assert s1.procs[p].Delete? ==> Stale(s1, s1.procs[p].level);
    hide Inv;
    assert InWay(s1, p, l, v);
  }

  lemma {:induction false} StaysBarred(s: State, p: Pid, l: nat, v: nat, n: nat)
    requires Barred(s, p, l, v) && Possible(s, Steps(p, n))
    ensures Barred(After(s, Steps(p, n)), p, l, v)
    decreases n
  {
    if n == 0 {
      NoSteps(p);
    } else {
      BarredStep(s, p, l, v);
      StepsFirst(p, n - 1);
      hide Barred, Steps;
      assert ([Acts(p)] + Steps(p, n - 1))[1..] == Steps(p, n - 1);
      assert Apply(s, Acts(p)) == Act(s, p);
      StaysBarred(Act(s, p), p, l, v, n - 1);
    }
  }

  lemma InWayBars(s: State, p: Pid, l: nat, v: nat)
    requires Inv(s) && Alive(s, p) && OnItsWay(s.procs[p], l) && InWay(s, p, l, v)
    ensures Barred(s, p, l, v)
  {
    if Holds(s.procs[p], l + 1) {
      HolderHas(s, p, l + 1);
      assert v == l;
    }
  }

  /** In every state, a process on its way to a lock that runs alone comes to hold it if and only if no
      live process holds a lock from that level upwards, up to the first that is free or its own. */
  lemma TakesExactly(s: State, p: Pid, l: nat)
    requires Inv(s) && Alive(s, p) && OnItsWay(s.procs[p], l)
    ensures CanTake(s, p, l) <==> Clear(s, p, l)
  {
    if Clear(s, p, l) {
      ClearTakes(s, p, l);
    } else {
      var v: nat :| InWay(s, p, l, v);
      InWayBars(s, p, l, v);
      forall n: nat | Possible(s, Steps(p, n)) && p in After(s, Steps(p, n)).procs
        ensures !Holds(After(s, Steps(p, n)).procs[p], l)
      {
        StaysBarred(s, p, l, v, n);
      }
    }
  }

  /** All levels from l up to k are locked by somebody. */
  predicate Chained(s: State, l: nat, k: nat) {
    l <= k && forall j | l <= j <= k :: j in s.files
  }

  /** In every guarded run, at any time: a lock that dead processes have left behind is taken by any
      process that tries for it and is left alone; one with a live holder in the way is not. */
  lemma StaleLocksAreTaken(s: State, run: seq<Event>, p: Pid, l: nat)
    requires Init(s) && Possible(s, run) && Guarded(s, run)
    requires Alive(After(s, run), p) && After(s, run).procs[p] == TryLink(l)
    ensures var s1 := After(s, run); CanTake(s1, p, l) <==> forall k: nat | Chained(s1, l, k) :: !Alive(s1, s1.files[k])
  {
    InitInv(s);
    RunInv(s, run);
    var s1 := After(s, run);
    TakesExactly(s1, p, l);
    forall k: nat | Chained(s1, l, k) ensures InWay(s1, p, l, k) <==> Alive(s1, s1.files[k]) {
      forall j | l <= j <= k ensures s1.files[j] != p {
        OwnsNone(s1, p, l, j);
      }
    }
    hide CanTake, After, Possible;
    assert forall k: nat | InWay(s1, p, l, k) :: Chained(s1, l, k);
  }

  /** A process that has the resource gives it back in three steps, whatever the others do not do. */
  lemma GivesBack(s: State, p: Pid)
    requires Inv(s) && Alive(s, p) && s.procs[p] == Critical
    ensures Reaches(s, Steps(p, 3), State(s.files - {0}, s.procs[p := Idle]))
  {
    HolderHas(s, p, 0);
    hide Inv, Possible, After, Steps;
    var s1 := To(s, p, Check(0));
    var s2 := To(s1, p, Remove(0));
    OneStep(s, p);
    OneStep(s1, p);
    OneStep(s2, p);
    StepsAdd(p, 1, 1);
    StepsAdd(p, 2, 1);
    ReachesOn(s, Steps(p, 1), s1, Steps(p, 1), s2);
    ReachesOn(s, Steps(p, 2), s2, Steps(p, 1), Act(s2, p));
    assert Act(s2, p) == State(s.files - {0}, s.procs[p := Idle]);
  }

  /** A stealer that finds no lock file, or a live process's pid in it, gives back the lock that guards
      stealing, takes nothing, and tries for the lock again. */
  lemma BacksOff(s: State, p: Pid, l: nat)
    requires Inv(s) && Alive(s, p) && s.procs[p] == Read(l) && (l in s.files ==> Alive(s, s.files[l]))
    ensures Reaches(s, Steps(p, if l in s.files then 4 else 3), State(s.files - {l + 1}, s.procs[p := TryLink(l)]))
  {
    HolderHas(s, p, l + 1);
    if l in s.files {
      NotOwn(s, p, l);
    }
    hide Inv, Possible, After, Steps;
    var s1 := if l in s.files then To(s, p, Probe(l, s.files[l])) else s;
    var s2 := To(s1, p, Check(l + 1));
    var s3 := To(s2, p, Remove(l + 1));
    var t := State(s.files - {l + 1}, s.procs[p := TryLink(l)]);
    assert Act(s3, p) == t;
    OneStep(s1, p);
    OneStep(s2, p);
    OneStep(s3, p);
    StepsAdd(p, 1, 1);
    StepsAdd(p, 2, 1);
    ReachesOn(s1, Steps(p, 1), s2, Steps(p, 1), s3);
    ReachesOn(s1, Steps(p, 2), s3, Steps(p, 1), t);
    if l in s.files {
      OneStep(s, p);
      StepsAdd(p, 1, 3);
      ReachesOn(s, Steps(p, 1), s1, Steps(p, 3), t);
    }
  }
}

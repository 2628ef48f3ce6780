/** Locking by hard link, with recursive stealing, as one process does it. */
module LnLock {
  import opened Text

  type Pid = nat

  /** Waiting: the call has not come back, however often it slept. */
  datatype Rc = Done | InUse | Waiting

  class LockDir {
    /** The pid in each lock file that exists, by level: "res", "res.", "res..", and so on. */
    var files: map<nat, Pid>
    /** What kill(pid, 0) finds. */
    const live: set<Pid>
    /** The process itself. */
    const me: Pid

    /** A lock that the process may steal. */
    predicate Stale(pid: Pid) {
      pid == me || pid !in live
    }

    constructor (files: map<nat, Pid>, live: set<Pid>, me: Pid)
      ensures this.files == files && this.live == live && this.me == me
    {
      this.files, this.live, this.me := files, live, me;
    }

    /** The lock files at a level and without a gap above it. */
    static ghost function Chain(files: map<nat, Pid>, level: nat): set<nat> {
      set k | k in files && k >= level && (forall j | level <= j <= k :: j in files)
    }

    /** Nobody alive holds the lock, nor one of those that guard its stealing without a gap. */
    ghost predicate Free(files: map<nat, Pid>, level: nat) {
      forall k | k in Chain(files, level) :: Stale(files[k])
    }

    /** The highest of these locks that a live process holds. */
    ghost predicate HeldUpAt(files: map<nat, Pid>, level: nat, v: nat) {
      v in Chain(files, level) && !Stale(files[v]) && Free(files, v + 1)
    }

    /** What is left while the lock is waited for: the stale locks above the one that is held. */
    ghost predicate Waited(before: map<nat, Pid>, level: nat, after: map<nat, Pid>) {
      exists v: nat :: HeldUpAt(before, level, v) && after == before - Chain(before, v + 1)
    }

    static ghost function Above(files: map<nat, Pid>, level: nat): set<nat> {
      set k | k in files && k >= level
    }

    static lemma ChainNext(files: map<nat, Pid>, level: nat)
      requires level in files
      ensures Chain(files, level) == {level} + Chain(files, level + 1)
    {}

    static lemma NoChain(files: map<nat, Pid>, level: nat)
      requires level !in files
      ensures Chain(files, level) == {}
    {}

    static lemma AboveNext(before: map<nat, Pid>, files: map<nat, Pid>, level: nat)
      requires level in before && files.Keys <= before.Keys
      ensures Above(files, level + 1) < Above(before, level)
    {
      assert level in Above(before, level);
    }

    /** A hold-up above the level is one of the level. */
    lemma WaitedBelow(before: map<nat, Pid>, level: nat, after: map<nat, Pid>)
      requires level in before && Waited(before, level + 1, after)
      ensures Waited(before, level, after) && !Free(before, level)
    {
      ChainNext(before, level);
      var v: nat :| HeldUpAt(before, level + 1, v) && after == before - Chain(before, v + 1);
      assert HeldUpAt(before, level, v);
    }

    /** A live holder of the lock itself, with the guarding locks free, is a hold-up. */
    lemma WaitedHere(before: map<nat, Pid>, level: nat)
      requires level in before && !Stale(before[level]) && Free(before, level + 1)
      ensures Waited(before, level, before - Chain(before, level + 1)) && !Free(before, level)
    {
      ChainNext(before, level);
      assert HeldUpAt(before, level, level);
    }

    /** An atomic check and set. */
    method LinkLock(level: nat) returns (rc: Rc)
      modifies this`files
      ensures rc == (if level in old(files) then InUse else Done)
      ensures files == if level in old(files) then old(files) else old(files)[level := me]
    {
      if level in files { return InUse; }
      files := files[level := me];
      rc := Done;
    }

    method ReadLock(level: nat) returns (pid: Option<Pid>)
      ensures pid == if level in files then Some(files[level]) else None
    {
      pid := if level in files then Some(files[level]) else None;
    }

    method DeleteLock(level: nat)
      modifies this`files
      ensures files == old(files) - {level}
    {
      files := files - {level};
    }

    method Unlock(level: nat)
      requires level in files && files[level] == me
      modifies this`files
      ensures files == old(files) - {level}
    {
      DeleteLock(level);
    }

    /** Frees a lock unless a live process holds it.  The locks that guard stealing are taken and
        given back; stale ones among them are gone afterwards.  It does not come back while a live
        process holds one of them. */
    method StealLock(level: nat, patience: nat) returns (rc: Rc)
      modifies this`files
      ensures rc == Waiting <==> !Free(old(files), level + 1)
      ensures rc == Waiting ==> Waited(old(files), level + 1, files)
      ensures rc != Waiting ==> (rc == InUse <==> level in old(files) && old(files)[level] in live && old(files)[level] != me)
      ensures rc != Waiting ==> files == old(files) - Chain(old(files), level + 1) - if rc == Done then {level} else {}
      decreases Above(files, level + 1), 1
    {
      var taken := Lock(level + 1, patience);
      if !taken {
        return Waiting;
      }
      var pid := ReadLock(level);
      if pid == None {
        rc := Done;
      } else if Stale(pid.value) {
        DeleteLock(level);
        rc := Done;
      } else {
        rc := InUse;
      }
      Unlock(level + 1);
    }

    /** Takes a lock exactly if nobody alive holds it or one of those that guard its stealing: whatever
        dead processes have left behind is replaced by one file with this pid.  Otherwise it sleeps and
        tries again, here as often as its patience lasts, and changes nothing but the stale locks above
        the highest that is held. */
    method Lock(level: nat, patience: nat) returns (taken: bool)
      modifies this`files
      ensures taken <==> Free(old(files), level)
      ensures taken <==>
        forall k | k in Chain(old(files), level) :: old(files)[k] == me || old(files)[k] !in live
      ensures taken ==> files == (old(files) - Chain(old(files), level))[level := me]
      ensures !taken ==> Waited(old(files), level, files)
      decreases Above(files, level), 0
    {
      ghost var before := files;
      NoChainThen(level);
      var rc := LinkLock(level);
      if rc == Done {
        return true;
      }
      ChainNext(before, level);
      var waits := patience;
      while true
        invariant level in before && files.Keys <= before.Keys && Chain(before, level) == {level} + Chain(before, level + 1)
        invariant files == before || Rested(before, level, files)
        decreases waits
      {
        AboveNext(before, files, level);
        if files != before { NoChain(files, level + 1); }
        rc := StealLock(level, patience);
        if rc == Waiting {
          WaitedBelow(before, level, files);
          return false;
        }
        if rc == Done {
          rc := LinkLock(level);
          return true;
        }
        if waits == 0 {
          WaitedHere(before, level);
          return false;
        }
        waits := waits - 1; // sleep, and try again
        rc := LinkLock(level);
      }
    }

    /** After a first look at a lock that a live process holds. */
    ghost predicate Rested(before: map<nat, Pid>, level: nat, files: map<nat, Pid>) {
      && level in before && !Stale(before[level]) && Free(before, level + 1)
      && files == before - Chain(before, level + 1) && level + 1 !in files
    }

    lemma NoChainThen(level: nat)
      ensures level !in files ==> Chain(files, level) == {}
    {}
  }
}

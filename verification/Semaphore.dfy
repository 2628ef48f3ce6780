/** A counting semaphore on a mutex and two condition variables, with any number of threads. */
module Semaphore {
  type Tid = nat

  const INT_LIMIT := 0x8000_0000

  /** The value of an unsigned int as an int. */
  function AsInt(n: nat): int {
    if n < INT_LIMIT then n else n - 2 * INT_LIMIT
  }

  type Unsigned = n: nat | n < 2 * INT_LIMIT

  /** Waiting threads have not been signalled; woken ones are about to test their condition again. */
  datatype Phase =
    | Idle
    | WaitDecrement(amount: int)
    | WokenDecrement(amount: int)
    | WaitEmpty
    | WokenEmpty

  datatype State = State(value: int, threads: map<Tid, Phase>)

  /** What one thread does while it holds the mutex.  Wakes are what the system may do by itself. */
  datatype Event =
    | Increment(tid: Tid, unsigned: Unsigned)
    | Decrement(tid: Tid, unsigned: Unsigned)
    | ForceAdjust(tid: Tid, amount: int)
    | ForceSet(tid: Tid, amount: int)
    | AwaitEmpty(tid: Tid)
    | Resume(tid: Tid)
    | Wake(tid: Tid)

  function PhaseOf(s: State, t: Tid): Phase {
    if t in s.threads then s.threads[t] else Idle
  }

  predicate Possible(s: State, e: Event) {
    match e
    case Resume(t) => PhaseOf(s, t).WokenDecrement? || PhaseOf(s, t).WokenEmpty?
    case Wake(t) => PhaseOf(s, t).WaitDecrement? || PhaseOf(s, t).WaitEmpty?
    case _ => PhaseOf(s, e.tid).Idle?
  }

  function Woken(p: Phase): Phase {
    match p
    case WaitDecrement(d) => WokenDecrement(d)
    case WaitEmpty => WokenEmpty
    case _ => p
  }

  function WakeDecrements(s: State): State {
    s.(threads := map t | t in s.threads :: if s.threads[t].WaitDecrement? then Woken(s.threads[t]) else s.threads[t])
  }

  function CheckEmpty(s: State): State {
    if s.value <= 0
    then s.(threads := map t | t in s.threads :: if s.threads[t].WaitEmpty? then Woken(s.threads[t]) else s.threads[t])
    else s
  }

  function SetPhase(s: State, t: Tid, p: Phase): State {
    s.(threads := s.threads[t := p])
  }

  function Adjust(s: State, amount: int): State {
    var s1 := s.(value := s.value + amount);
    if amount < 0 then CheckEmpty(s1) else WakeDecrements(s1)
  }

  function SetValue(s: State, amount: int): State {
    var s1 := s.(value := amount);
    if amount < s.value then CheckEmpty(s1) else WakeDecrements(s1)
  }

  /** One pass of the loop in decrement. */
  function TryDecrement(s: State, t: Tid, d: int): State {
    if s.value < d then SetPhase(s, t, WaitDecrement(d))
    else CheckEmpty(SetPhase(s.(value := s.value - d), t, Idle))
  }

  function TryEmpty(s: State, t: Tid): State {
    SetPhase(s, t, if s.value > 0 then WaitEmpty else Idle)
  }

  function Step(s: State, e: Event): State
    requires Possible(s, e)
  {
    match e
    case Increment(t, n) => if n == 0 then s else Adjust(s, AsInt(n))
    case Decrement(t, n) => if AsInt(n) < 0 then s else TryDecrement(s, t, AsInt(n))
    case ForceAdjust(t, amount) => Adjust(s, amount)
    case ForceSet(t, amount) => SetValue(s, amount)
    case AwaitEmpty(t) => TryEmpty(s, t)
    case Resume(t) =>
      (match PhaseOf(s, t)
       case WokenDecrement(d) => TryDecrement(s, t, d)
       case _ => TryEmpty(s, t))
    case Wake(t) => SetPhase(s, t, Woken(PhaseOf(s, t)))
  }

  predicate PossibleRun(s: State, run: seq<Event>)
    decreases |run|
  {
    run != [] ==> Possible(s, run[0]) && PossibleRun(Step(s, run[0]), run[1..])
  }

  function After(s: State, run: seq<Event>): State
    requires PossibleRun(s, run)
    decreases |run|
  {
    if run == [] then s else After(Step(s, run[0]), run[1..])
  }

  // ---------- no lost wakeups ----------

  /** Threads in decrement wait for amounts that are not negative. */
  predicate WaitsGood(s: State) {
    forall t | t in s.threads :: (s.threads[t].WaitDecrement? || s.threads[t].WokenDecrement?) ==> s.threads[t].amount >= 0
  }

  /** A thread that has not been signalled has nothing to be signalled for. */
  predicate NoneForgotten(s: State) {
    forall t | t in s.threads ::
      match s.threads[t]
      case WaitDecrement(d) => s.value < d
      case WaitEmpty => s.value > 0
      case _ => true
  }

  lemma AdjustForgetsNone(s: State, amount: int)
    requires NoneForgotten(s) && WaitsGood(s)
    ensures NoneForgotten(Adjust(s, amount)) && WaitsGood(Adjust(s, amount))
    ensures NoneForgotten(SetValue(s, amount)) && WaitsGood(SetValue(s, amount))
  {}

  lemma DecrementForgetsNone(s: State, t: Tid, d: int)
    requires NoneForgotten(s) && WaitsGood(s) && d >= 0
    ensures NoneForgotten(TryDecrement(s, t, d)) && WaitsGood(TryDecrement(s, t, d))
  {}

  lemma EmptyForgetsNone(s: State, t: Tid)
    requires NoneForgotten(s) && WaitsGood(s)
    ensures NoneForgotten(TryEmpty(s, t)) && WaitsGood(TryEmpty(s, t))
  {}

  lemma StepForgetsNone(s: State, e: Event)
    requires NoneForgotten(s) && WaitsGood(s) && Possible(s, e)
    ensures NoneForgotten(Step(s, e)) && WaitsGood(Step(s, e))
  {
    hide Adjust, SetValue, TryDecrement, TryEmpty;
    match e
    case Increment(_, n) => AdjustForgetsNone(s, AsInt(n));
    case Decrement(t, n) => if AsInt(n) >= 0 { DecrementForgetsNone(s, t, AsInt(n)); }
    case ForceAdjust(_, amount) => AdjustForgetsNone(s, amount);
    case ForceSet(_, amount) => AdjustForgetsNone(s, amount);
    case AwaitEmpty(t) => EmptyForgetsNone(s, t);
    case Resume(t) =>
      EmptyForgetsNone(s, t);
      if PhaseOf(s, t).WokenDecrement? { DecrementForgetsNone(s, t, s.threads[t].amount); }
    case Wake(_) =>
  }

  /** In every interleaving: a thread in decrement whose amount is there, or in wait_empty when the
      semaphore is empty, is not left waiting: it has been woken, or is still to test. */
  lemma {:induction false} NoLostWakeups(s: State, run: seq<Event>)
    requires NoneForgotten(s) && WaitsGood(s) && PossibleRun(s, run)
    ensures NoneForgotten(After(s, run)) && WaitsGood(After(s, run))
    decreases |run|
  {
    hide Step, NoneForgotten, WaitsGood, Possible;
    if run != [] {
      StepForgetsNone(s, run[0]);
      NoLostWakeups(Step(s, run[0]), run[1..]);
    }
  }

  // ---------- everybody who can be served is served ----------

  /** A thread inside decrement, and the amount it is there for. */
  predicate Wants(s: State, t: Tid) {
    PhaseOf(s, t).WaitDecrement? || PhaseOf(s, t).WokenDecrement?
  }

  function AmountOf(s: State, t: Tid): int {
    if Wants(s, t) then PhaseOf(s, t).amount else 0
  }

  function Demand(s: State, order: seq<Tid>): int {
    if order == [] then 0 else AmountOf(s, order[0]) + Demand(s, order[1..])
  }

  predicate AllWant(s: State, order: seq<Tid>) {
    && (forall i | 0 <= i < |order| :: Wants(s, order[i]))
    && (forall i, j | 0 <= i < j < |order| :: order[i] != order[j])
  }

  /** The threads go on in this order, one after the other. */
  function Resumes(order: seq<Tid>): (run: seq<Event>)
    ensures |run| == |order|
  {
    if order == [] then [] else [Resume(order[0])] + Resumes(order[1..])
  }

  lemma {:induction false} DemandNotNegative(s: State, order: seq<Tid>)
    requires WaitsGood(s)
    ensures Demand(s, order) >= 0
  {
    if order != [] {
      DemandNotNegative(s, order[1..]);
    }
  }

  /** Serving one thread takes its amount and leaves the others inside, with theirs. */
  lemma ServeOne(s: State, t: Tid, u: Tid)
    requires NoneForgotten(s) && WaitsGood(s) && Wants(s, t) && AmountOf(s, t) <= s.value
    ensures Possible(s, Resume(t))
    ensures var s1 := Step(s, Resume(t));
      && s1.value == s.value - AmountOf(s, t) && PhaseOf(s1, t).Idle?
      && (u != t ==> (Wants(s1, u) <==> Wants(s, u)) && AmountOf(s1, u) == AmountOf(s, u))
      && (PhaseOf(s, u).Idle? ==> PhaseOf(s1, u).Idle?)
  {}

  lemma {:induction false} DemandKept(s: State, s1: State, order: seq<Tid>)
    requires forall i | 0 <= i < |order| :: AmountOf(s1, order[i]) == AmountOf(s, order[i])
    ensures Demand(s1, order) == Demand(s, order)
  {
    if order != [] {
      assert forall i | 0 <= i < |order[1..]| :: order[1..][i] == order[i + 1];
      DemandKept(s, s1, order[1..]);
    }
  }

  /** Where the value covers what the threads want together, each of them has been woken and goes
      through, in whatever order the system runs them; afterwards exactly their total is gone. */
  lemma {:induction false} AllServed(s: State, order: seq<Tid>)
    requires NoneForgotten(s) && WaitsGood(s)
    requires AllWant(s, order) && Demand(s, order) <= s.value
    ensures PossibleRun(s, Resumes(order))
    ensures var s1 := After(s, Resumes(order));
      && s1.value == s.value - Demand(s, order)
      && (forall i | 0 <= i < |order| :: PhaseOf(s1, order[i]).Idle?)
      && (forall t | PhaseOf(s, t).Idle? :: PhaseOf(s1, t).Idle?)
    decreases |order|
  {
    if order != [] {
      var t, rest := order[0], order[1..];
      DemandNotNegative(s, rest);
      hide Step, NoneForgotten, WaitsGood, Possible, PhaseOf, Wants, AmountOf;
      forall u ensures var s1 := Step(s, Resume(t));
        && (u != t ==> (Wants(s1, u) <==> Wants(s, u)) && AmountOf(s1, u) == AmountOf(s, u))
        && (PhaseOf(s, u).Idle? ==> PhaseOf(s1, u).Idle?)
      {
        ServeOne(s, t, u);
      }
      ServeOne(s, t, t);
      StepForgetsNone(s, Resume(t));
      var s1 := Step(s, Resume(t));
      assert forall i | 0 <= i < |rest| :: rest[i] == order[i + 1];
      DemandKept(s, s1, rest);
      AllServed(s1, rest);
      assert Resumes(order)[1..] == Resumes(rest);
    }
  }

  /** The same in every run from a semaphore that nobody waits for. */
  lemma ServedInEveryRun(s: State, run: seq<Event>, order: seq<Tid>)
    requires (forall t | t in s.threads :: s.threads[t].Idle?) && PossibleRun(s, run)
    requires AllWant(After(s, run), order) && Demand(After(s, run), order) <= After(s, run).value
    ensures var s1 := After(s, run);
      && PossibleRun(s1, Resumes(order))
      && After(s1, Resumes(order)).value == s1.value - Demand(s1, order)
      && (forall i | 0 <= i < |order| :: PhaseOf(After(s1, Resumes(order)), order[i]).Idle?)
  {
    NoLostWakeups(s, run);
    AllServed(After(s, run), order);
  }

  /** A thread inside wait_empty goes through whenever the semaphore is empty. */
  lemma EmptyServed(s: State, t: Tid)
    requires NoneForgotten(s) && WaitsGood(s) && s.value <= 0 && (PhaseOf(s, t).WaitEmpty? || PhaseOf(s, t).WokenEmpty?)
    ensures Possible(s, Resume(t)) && PhaseOf(Step(s, Resume(t)), t).Idle? && Step(s, Resume(t)).value == s.value
  {}

  // ---------- who returns, and when ----------

  /** The thread is testing whether the semaphore is empty. */
  predicate TestsEmpty(s: State, e: Event, t: Tid) {
    e == AwaitEmpty(t) || (e == Resume(t) && PhaseOf(s, t) == WokenEmpty)
  }

  /** The thread is testing whether the amount is there. */
  predicate TestsFor(s: State, e: Event, t: Tid, amount: int) {
    || (e.Decrement? && e.tid == t && e.unsigned < INT_LIMIT && amount == e.unsigned)
    || (e == Resume(t) && PhaseOf(s, t) == WokenDecrement(amount))
  }

  /** A thread leaves wait_empty exactly if the value is at most 0 when it tests, and leaves decrement
      exactly if its amount is there, which it takes then; nothing else lets a thread leave, or enter, or
      changes what it is inside for. */
  lemma ReturnsExactly(s: State, e: Event, t: Tid, amount: int)
    requires Possible(s, e)
    ensures var s1 := Step(s, e);
      && (TestsEmpty(s, e, t) ==> (PhaseOf(s1, t).Idle? <==> s.value <= 0) && s1.value == s.value)
      && (TestsFor(s, e, t, amount) ==> (PhaseOf(s1, t).Idle? <==> s.value >= amount))
      && (TestsFor(s, e, t, amount) ==> s1.value == s.value - (if s.value >= amount then amount else 0))
      && (TestsFor(s, e, t, amount) && s.value < amount ==> PhaseOf(s1, t) == WaitDecrement(amount))
      && (TestsEmpty(s, e, t) && s.value > 0 ==> PhaseOf(s1, t) == WaitEmpty)
      && (!TestsEmpty(s, e, t) && (forall n :: !TestsFor(s, e, t, n)) ==> Woken(PhaseOf(s1, t)) == Woken(PhaseOf(s, t)))
  {
    if e.tid == t && e.Decrement? && e.unsigned < INT_LIMIT {
      assert TestsFor(s, e, t, e.unsigned);
    }
    if e.tid == t && e.Resume? && PhaseOf(s, t).WokenDecrement? {
      assert TestsFor(s, e, t, PhaseOf(s, t).amount);
    }
  }

  /** What every event makes of the value: an increment of 2^31 or more takes 2^32 less than it. */
  lemma ValueExactly(s: State, e: Event)
    requires Possible(s, e)
    ensures Step(s, e).value ==
      match e
      case Increment(_, n) => if n < 0x8000_0000 then s.value + n else s.value + n - 0x1_0000_0000
      case Decrement(_, n) => if n <= s.value && n < 0x8000_0000 then s.value - n else s.value
      case ForceAdjust(_, amount) => s.value + amount
      case ForceSet(_, amount) => amount
      case Resume(t) => s.value - (if PhaseOf(s, t).WokenDecrement? && PhaseOf(s, t).amount <= s.value then PhaseOf(s, t).amount else 0)
      case _ => s.value
  {}

  // ---------- accounting ----------

  predicate OnlyIncDec(e: Event) {
    !e.ForceAdjust? && !e.ForceSet?
  }

  /** Amounts that decrement takes out when it completes. */
  function Taken(s: State, e: Event): int {
    match e
    case Decrement(_, n) => if 0 <= AsInt(n) <= s.value then AsInt(n) else 0
    case Resume(t) => (match PhaseOf(s, t) case WokenDecrement(d) => if d <= s.value then d else 0 case _ => 0)
    case _ => 0
  }

  function Given(e: Event): int {
    if e.Increment? then e.unsigned else 0
  }

  function TotalTaken(s: State, run: seq<Event>): int
    requires PossibleRun(s, run)
    decreases |run|
  {
    if run == [] then 0 else Taken(s, run[0]) + TotalTaken(Step(s, run[0]), run[1..])
  }

  function TotalGiven(run: seq<Event>): int {
    if run == [] then 0 else Given(run[0]) + TotalGiven(run[1..])
  }

  predicate SmallIncrements(run: seq<Event>) {
    forall i | 0 <= i < |run| :: OnlyIncDec(run[i]) && (run[i].Increment? ==> run[i].unsigned < INT_LIMIT)
  }

  lemma StepCounts(s: State, e: Event)
    requires Possible(s, e) && OnlyIncDec(e) && (e.Increment? ==> e.unsigned < INT_LIMIT)
    requires WaitsGood(s) && s.value >= 0
    ensures WaitsGood(Step(s, e)) && Step(s, e).value == s.value + Given(e) - Taken(s, e) >= 0
  {}

  /** With increments and decrements alone the value is what was put in less what was taken out by
      completed decrements, and never negative. */
  lemma {:induction false} ValueAccounted(s: State, run: seq<Event>)
    requires PossibleRun(s, run) && SmallIncrements(run)
    requires WaitsGood(s) && s.value >= 0
    ensures After(s, run).value == s.value + TotalGiven(run) - TotalTaken(s, run) >= 0
    decreases |run|
  {
    hide Step, WaitsGood, Possible, Given, Taken;
    if run != [] {
      StepCounts(s, run[0]);
      assert forall i | 0 <= i < |run[1..]| :: run[1..][i] == run[i + 1];
      ValueAccounted(Step(s, run[0]), run[1..]);
    }
  }

  /** An increment is one exactly when its amount fits an int: a larger one takes away instead. */
  lemma LargeIncrement(s: State, t: Tid, n: Unsigned)
    requires PhaseOf(s, t).Idle?
    ensures Step(s, Increment(t, n)).value == s.value + n <==> n < INT_LIMIT
  {}

  // ---------- the shared object ----------

  class Sem {
    var value: int
    var threads: map<Tid, Phase>

    ghost function Abs(): State
      reads this
    {
      State(value, threads)
    }

    constructor (value: int)
      ensures Abs() == State(value, map[])
    {
      this.value, threads := value, map[];
    }

    method BroadcastDecrement()
      modifies this`threads
      ensures Abs() == WakeDecrements(old(Abs()))
    {
      threads := map t | t in threads :: if threads[t].WaitDecrement? then Woken(threads[t]) else threads[t];
    }

    method CheckIfEmpty()
      modifies this`threads
      ensures Abs() == CheckEmpty(old(Abs()))
    {
      if value <= 0 {
        threads := map t | t in threads :: if threads[t].WaitEmpty? then Woken(threads[t]) else threads[t];
      }
    }

    method AdjustBy(amount: int)
      modifies this
      ensures Abs() == Adjust(old(Abs()), amount)
    {
      value := value + amount;
      if amount < 0 { CheckIfEmpty(); } else { BroadcastDecrement(); }
    }

    method SetTo(amount: int)
      modifies this
      ensures Abs() == SetValue(old(Abs()), amount)
    {
      var before := value;
      value := amount;
      if amount < before { CheckIfEmpty(); } else { BroadcastDecrement(); }
    }

    /** The body of decrement from one test of the loop to the next wait or the end. */
    method Take(t: Tid, d: int)
      modifies this
      ensures Abs() == TryDecrement(old(Abs()), t, d)
    {
      if value < d {
        threads := threads[t := WaitDecrement(d)];
      } else {
        value := value - d;
        threads := threads[t := Idle];
        CheckIfEmpty();
      }
    }

    method TestEmpty(t: Tid)
      modifies this
      ensures Abs() == TryEmpty(old(Abs()), t)
    {
      threads := threads[t := if value > 0 then WaitEmpty else Idle];
    }
  }
}

/** `queue_mt`: any number of threads, one mutex and two condition variables, step by step. */
module QueueProtocol {
  import opened Common

  datatype Op<T> = Push(item: T) | Pop | Size | Full | Stop

  datatype Signal = Empty | NotFull | Both

  /**
   * Where a thread stands in a call. Wanting: it waits for the mutex, at the start or after it was woken. Testing: it
   * holds the mutex and is about to test the wait predicate. Acting: the predicate was true. Notifying: the state has
   * been changed, the notify_all calls are still to come. Leaving: all is done but the unlock. Asleep: blocked in a
   * condition variable, and not notified.
   */
  datatype Phase<T> =
    | Idle
    | Wanting(op: Op<T>)
    | Testing(op: Op<T>)
    | Acting(op: Op<T>)
    | Notifying(signal: Signal)
    | Leaving
    | Asleep(op: Op<T>)

  /** The queue, its mutex and its threads; accepted and taken record the items that went in and out, seen the
      last size a thread read. */
  datatype State<T> = State(
    items: seq<T>, stopped: bool, maxSize: int, owner: Option<nat>, phase: map<nat, Phase<T>>,
    accepted: seq<T>, taken: seq<T>, seen: map<nat, nat>)

  /** The predicates the threads wait for; the other calls never wait. */
  predicate MayGo<T>(s: State<T>, op: Op<T>) {
    match op
    case Push(_) => s.stopped || s.maxSize <= 0 || |s.items| < s.maxSize
    case Pop => s.stopped || |s.items| > 0
    case _ => true
  }

  /** The condition variable an operation waits on is among those signalled. */
  predicate Wakes<T>(signal: Signal, op: Op<T>) {
    signal.Both? || (signal.Empty? && op.Pop?) || (signal.NotFull? && op.Push?)
  }

  datatype Step<T> =
    | Call(t: nat, op: Op<T>)
    | Lock(t: nat)
    | Test(t: nat)
    | Act(t: nat)
    | Notify(t: nat)
    | Unlock(t: nat)
    | Spurious(t: nat)

  function Woken<T>(phase: map<nat, Phase<T>>, signal: Signal): map<nat, Phase<T>> {
    map t | t in phase :: if phase[t].Asleep? && Wakes(signal, phase[t].op) then Wanting(phase[t].op) else phase[t]
  }

  /** What a call does once it may go: `push`, `pop` and `stop` change the state and go on to notify. */
  function Acted<T>(s: State<T>, t: nat, op: Op<T>): State<T> {
    match op
    case Push(x) =>
      if s.stopped then s.(phase := s.phase[t := Leaving], seen := s.seen - {t})
      else s.(items := s.items + [x], accepted := s.accepted + [x],
              phase := s.phase[t := Notifying(Empty)], seen := s.seen - {t})
    case Pop =>
      if s.stopped || s.items == [] then s.(phase := s.phase[t := Leaving], seen := s.seen - {t})
      else s.(items := s.items[1..], taken := s.taken + [s.items[0]],
              phase := s.phase[t := Notifying(NotFull)], seen := s.seen - {t})
    case Stop => s.(stopped := true, phase := s.phase[t := Notifying(Both)])
    case Size => s.(phase := s.phase[t := Leaving], seen := s.seen[t := |s.items|])
    case Full => s.(phase := s.phase[t := Leaving])
  }

  /** One atomic step of one thread. */
  ghost predicate Next<T>(s: State<T>, step: Step<T>, s': State<T>) {
    step.t in s.phase && var p := s.phase[step.t];
    match step
    case Call(t, op) => p.Idle? && s' == s.(phase := s.phase[t := Wanting(op)])
    case Lock(t) => p.Wanting? && s.owner.None? && s' == s.(owner := Some(t), phase := s.phase[t := Testing(p.op)])
    case Test(t) =>
      p.Testing? && s' ==
        if MayGo(s, p.op) then s.(phase := s.phase[t := Acting(p.op)])
        else s.(phase := s.phase[t := Asleep(p.op)], owner := None)
    case Act(t) => p.Acting? && s' == Acted(s, t, p.op)
    case Notify(t) => p.Notifying? && s' == s.(phase := Woken(s.phase, p.signal)[t := Leaving])
    case Unlock(t) => p.Leaving? && s' == s.(phase := s.phase[t := Idle], owner := None)
    case Spurious(t) => p.Asleep? && s' == s.(phase := s.phase[t := Wanting(p.op)])
  }

  ghost predicate Init<T>(s: State<T>) {
    && s.items == [] && !s.stopped && s.owner.None? && s.accepted == [] && s.taken == [] && s.seen == map[]
    && forall t :: t in s.phase ==> s.phase[t].Idle?
  }

  predicate Inside<T>(p: Phase<T>) {
    p.Testing? || p.Acting? || p.Notifying? || p.Leaving?
  }

  /** The mutex belongs to whoever is inside. */
  ghost predicate Exclusive<T>(s: State<T>) {
    && (s.owner.Some? ==> s.owner.value in s.phase)
    && forall t :: t in s.phase ==> (Inside(s.phase[t]) <==> s.owner == Some(t))
  }

  /** First in, first out: what was accepted is what was taken, then what is there. */
  ghost predicate Fifo<T>(s: State<T>) {
    s.accepted == s.taken + s.items
  }

  predicate WithinCapacity<T>(s: State<T>) {
    s.maxSize > 0 ==> |s.items| <= s.maxSize
  }

  /** A thread that may act has found its predicate true, and it still is. */
  predicate StillMayGo<T>(s: State<T>) {
    forall t :: t in s.phase && s.phase[t].Acting? ==> MayGo(s, s.phase[t].op)
  }

  /** No lost wake-up: who sleeps has reason to, or is about to be notified by the thread that holds the mutex. */
  predicate NoLostWakeUp<T>(s: State<T>) {
    forall t :: t in s.phase && s.phase[t].Asleep? && MayGo(s, s.phase[t].op) ==>
      exists o :: o in s.phase && s.phase[o].Notifying? && Wakes(s.phase[o].signal, s.phase[t].op)
  }

  ghost predicate Safe<T>(s: State<T>) {
    Exclusive(s) && Fifo(s) && WithinCapacity(s) && StillMayGo(s) && NoLostWakeUp(s)
  }

  lemma InitSafe<T>(s: State<T>)
    requires Init(s)
    ensures Safe(s)
  {
  }

  lemma MutexKept<T>(s: State<T>, step: Step<T>, s': State<T>)
    requires Exclusive(s) && Next(s, step, s')
    ensures Exclusive(s')
  {
  }

  lemma DataKept<T>(s: State<T>, step: Step<T>, s': State<T>)
    requires Exclusive(s) && Fifo(s) && WithinCapacity(s) && StillMayGo(s) && Next(s, step, s')
    ensures Fifo(s') && WithinCapacity(s')
  {
    if step.Act? && s.phase[step.t].op.Pop? && !s.stopped {
      assert MayGo(s, s.phase[step.t].op);
      assert s.taken + s.items == s.taken + [s.items[0]] + s.items[1..];
    }
  }

  lemma TestKept<T>(s: State<T>, step: Step<T>, s': State<T>)
    requires Exclusive(s) && StillMayGo(s) && Next(s, step, s')
    ensures StillMayGo(s')
  {
    forall t | t in s'.phase && s'.phase[t].Acting?
      ensures MayGo(s', s'.phase[t].op)
    {
      if t != step.t {
        assert Inside(s.phase[t]) && s.phase[t] == s'.phase[t];
        assert !Inside(s.phase[step.t]);
      }
    }
  }

  /** While one thread is inside, about to act, nobody can be about to notify, so nobody sleeps who might go. */
  lemma NobodyWaitsInVain<T>(s: State<T>, t: nat)
    requires Exclusive(s) && NoLostWakeUp(s) && t in s.phase && Inside(s.phase[t]) && !s.phase[t].Notifying?
    ensures forall u :: u in s.phase && s.phase[u].Asleep? ==> !MayGo(s, s.phase[u].op)
  {
  }

  /** The thread about to notify wakes every sleeper who might go. */
  lemma EverybodyIsWoken<T>(s: State<T>, t: nat)
    requires Exclusive(s) && NoLostWakeUp(s) && t in s.phase && s.phase[t].Notifying?
    ensures forall u :: u in s.phase && s.phase[u].Asleep? && MayGo(s, s.phase[u].op) ==>
      Wakes(s.phase[t].signal, s.phase[u].op)
  {
    forall u | u in s.phase && s.phase[u].Asleep? && MayGo(s, s.phase[u].op)
      ensures Wakes(s.phase[t].signal, s.phase[u].op)
    {
      var o :| o in s.phase && s.phase[o].Notifying? && Wakes(s.phase[o].signal, s.phase[u].op);
      assert Inside(s.phase[o]) && Inside(s.phase[t]);
    }
  }

  lemma WakeUpsKept<T>(s: State<T>, step: Step<T>, s': State<T>)
    requires Exclusive(s) && NoLostWakeUp(s) && Next(s, step, s')
    ensures NoLostWakeUp(s')
  {
    var t := step.t;
    if s.phase[t].Notifying? {
      EverybodyIsWoken(s, t);
    } else if Inside(s.phase[t]) {
      NobodyWaitsInVain(s, t);
    }
    forall u | u in s'.phase && s'.phase[u].Asleep? && MayGo(s', s'.phase[u].op)
      ensures exists o :: o in s'.phase && s'.phase[o].Notifying? && Wakes(s'.phase[o].signal, s'.phase[u].op)
    {
      if step.Act? {
        assert s.phase[u] == s'.phase[u] && s'.phase[t].Notifying?;
        assert Wakes(s'.phase[t].signal, s'.phase[u].op);
      } else if !step.Notify? {
        var o :| o in s.phase && s.phase[o].Notifying? && Wakes(s.phase[o].signal, s.phase[u].op);
        assert s'.phase[o] == s.phase[o];
      }
    }
  }

  /** Whatever step whatever thread takes, the queue stays safe. */
  lemma NextSafe<T>(s: State<T>, step: Step<T>, s': State<T>)
    requires Safe(s) && Next(s, step, s')
    ensures Safe(s')
  {
    hide Next, Exclusive, Fifo, WithinCapacity, StillMayGo, NoLostWakeUp;
    MutexKept(s, step, s');
    DataKept(s, step, s');
    TestKept(s, step, s');
    WakeUpsKept(s, step, s');
  }

  ghost predicate NobodySleeps<T>(s: State<T>) {
    forall u :: u in s.phase ==> !s.phase[u].Asleep?
  }

  /** A stop is for good: the flag stays, and once all are awake nobody falls asleep. */
  lemma StoppedForGood<T>(s: State<T>, step: Step<T>, s': State<T>)
    requires Next(s, step, s') && s.stopped
    ensures s'.stopped && (NobodySleeps(s) ==> NobodySleeps(s'))
  {
  }

  /** A run: any interleaving of steps of any number of threads. */
  ghost predicate Run<T>(states: seq<State<T>>, steps: seq<Step<T>>) {
    && |states| == |steps| + 1 && Init(states[0])
    && forall i :: 0 <= i < |steps| ==> Next(states[i], steps[i], states[i + 1])
  }

  /** In every state of every run: first in, first out, within capacity, and no wake-up lost. */
  lemma {:induction false} RunSafe<T>(states: seq<State<T>>, steps: seq<Step<T>>, i: nat)
    requires Run(states, steps) && i < |states|
    ensures Safe(states[i])
    decreases i
  {
    if i == 0 {
      InitSafe(states[0]);
    } else {
      RunSafe(states, steps, i - 1);
      NextSafe(states[i - 1], steps[i - 1], states[i]);
    }
  }

  /** From the notification of a stop on, in every run, the queue is stopped and no thread sleeps. */
  lemma {:induction false} StopLetsAllGo<T>(states: seq<State<T>>, steps: seq<Step<T>>, t: nat, i: nat, j: nat, k: nat)
    requires Run(states, steps) && i < j < k < |states|
    requires steps[i] == Act(t) && t in states[i].phase && states[i].phase[t] == Acting(Stop)
    requires steps[j] == Notify(t) && t in states[j].phase && states[j].phase[t] == Notifying(Both)
    ensures states[k].stopped && NobodySleeps(states[k])
    decreases k
  {
    if k == j + 1 {
      StopStays(states, steps, t, i, j);
      assert Next(states[j], steps[j], states[j + 1]);
    } else {
      StopLetsAllGo(states, steps, t, i, j, k - 1);
      StoppedForGood(states[k - 1], steps[k - 1], states[k]);
    }
  }

  lemma {:induction false} StopStays<T>(states: seq<State<T>>, steps: seq<Step<T>>, t: nat, i: nat, j: nat)
    requires Run(states, steps) && i < j < |states|
    requires steps[i] == Act(t) && t in states[i].phase && states[i].phase[t] == Acting(Stop)
    ensures states[j].stopped
    decreases j
  {
    assert Next(states[i], steps[i], states[i + 1]);
    if j > i + 1 {
      StopStays(states, steps, t, i, j - 1);
      StoppedForGood(states[j - 1], steps[j - 1], states[j]);
    }
  }
}

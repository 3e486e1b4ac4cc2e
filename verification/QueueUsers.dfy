/** The pipeline's use of `queue_mt`: one producer that looks before it pushes, one consumer that looks before it
    pops. */
module QueueUsers {
  import opened QueueProtocol

  const PRODUCER: nat := 0
  const CONSUMER: nat := 1

  /** The producer pushes only having read a size of at most ten, the consumer pops only having read a positive one. */
  predicate MayCall<T>(s: State<T>, t: nat, op: Op<T>) {
    match op
    case Size => true
    case Push(_) => t == PRODUCER && t in s.seen && s.seen[t] <= 10
    case Pop => t == CONSUMER && t in s.seen && s.seen[t] > 0
    case _ => false
  }

  ghost predicate UserStep<T>(s: State<T>, step: Step<T>, s': State<T>) {
    Next(s, step, s') && (step.Call? ==> MayCall(s, step.t, step.op))
  }

  ghost predicate UserInit<T>(s: State<T>) {
    Init(s) && s.maxSize <= 0 && s.phase.Keys == {PRODUCER, CONSUMER}
  }

  /** What a thread is about to do is what its last reading of the size allows. */
  predicate Checked<T>(s: State<T>, t: nat, p: Phase<T>) {
    (p.Wanting? || p.Testing? || p.Acting? ==> MayCall(s, t, p.op)) && !p.Asleep?
  }

  /** Only the consumer takes items out and only the producer puts them in, so a size read stays a bound. */
  ghost predicate Bounded<T>(s: State<T>) {
    && s.phase.Keys == {PRODUCER, CONSUMER} && s.maxSize <= 0 && !s.stopped && |s.items| <= 11
    && (PRODUCER in s.seen ==> |s.items| <= s.seen[PRODUCER])
    && (CONSUMER in s.seen ==> s.seen[CONSUMER] <= |s.items|)
    && forall t :: t in s.phase ==> Checked(s, t, s.phase[t])
  }

  lemma StepBounded<T>(s: State<T>, step: Step<T>, s': State<T>)
    requires Bounded(s) && UserStep(s, step, s')
    ensures Bounded(s')
  {
    assert s'.phase.Keys == s.phase.Keys;
    assert Checked(s, step.t, s.phase[step.t]);
    forall t | t in s'.phase
      ensures Checked(s', t, s'.phase[t])
    {
      assert Checked(s, t, s.phase[t]);
    }
  }

  ghost predicate UserRun<T>(states: seq<State<T>>, steps: seq<Step<T>>) {
    && |states| == |steps| + 1 && UserInit(states[0])
    && forall i :: 0 <= i < |steps| ==> UserStep(states[i], steps[i], states[i + 1])
  }

  /** In every run the queue holds at most eleven items, and neither thread is ever blocked waiting for the other. */
  lemma {:induction false} ElevenAtMost<T>(states: seq<State<T>>, steps: seq<Step<T>>, i: nat)
    requires UserRun(states, steps) && i < |states|
    ensures Bounded(states[i])
    ensures |states[i].items| <= 11 && forall t :: t in states[i].phase ==> !states[i].phase[t].Asleep?
    decreases i
  {
    if i > 0 {
      ElevenAtMost(states, steps, i - 1);
      StepBounded(states[i - 1], steps[i - 1], states[i]);
    }
  }
}

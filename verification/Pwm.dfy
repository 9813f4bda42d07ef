/**
 The start/wait/expire protocol of the PWM upper half (nuttx/drivers/pwm.c, the pulse-count
 build): any number of threads make ioctl calls under a mutex, and an interrupt reports the end
 of a pulse train. The machine steps where the source can be interrupted; a stretch of code
 that runs with interrupts disabled is one step.
 */
module Pwm {
  import opened Common

  datatype Cmd = SetCharacteristics(count: nat) | Start(nonblock: bool) | Stop | Other

  /** Where a thread is in pwm_ioctl. Launching: pwm_start has found the output not started.
      Waiting: in sem_wait on waitsem. Stopping: PWMIOC_STOP has called the lower half. */
  datatype Pc = Idle | Entered(cmd: Cmd) | Launching(nonblock: bool) | Waiting | Stopping | Leaving(ok: bool)

  datatype State = State(started: bool, waiting: bool, waitsem: nat, count: nat, holder: Option<nat>, pcs: seq<Pc>)

  /** What can happen next. Act is the next step of a call; ok is the answer of the lower half
      if the step asks it. Wake is a sem_wait that got a count, Interrupted one that did not. */
  datatype Event = Enter(t: nat, cmd: Cmd) | Act(t: nat, ok: bool) | Wake(t: nat) | Interrupted(t: nat) | Leave(t: nat) | Expired

  ghost predicate Init(s: State) {
    !s.started && !s.waiting && s.waitsem == 0 && s.count == 0 && s.holder == None && forall t | 0 <= t < |s.pcs| :: s.pcs[t] == Idle
  }

  predicate Enabled(s: State, e: Event) {
    match e
    case Enter(t, _) => t < |s.pcs| && s.pcs[t] == Idle && s.holder == None
    case Act(t, _) => t < |s.pcs| && (s.pcs[t].Entered? || s.pcs[t].Launching? || s.pcs[t] == Stopping)
    case Wake(t) => t < |s.pcs| && s.pcs[t] == Waiting && s.waitsem > 0
    case Interrupted(t) => t < |s.pcs| && s.pcs[t] == Waiting
    case Leave(t) => t < |s.pcs| && s.pcs[t].Leaving?
    case Expired => true
  }

  function At(s: State, t: nat, pc: Pc): State
    requires t < |s.pcs|
  {
    s.(pcs := s.pcs[t := pc])
  }

  /** The test at the head of the loop in pwm_start. */
  function Retest(s: State, t: nat): State
    requires t < |s.pcs|
  {
    At(s, t, if s.waiting then Waiting else Leaving(true))
  }

  /** The part of pwm_start that runs with interrupts disabled. */
  function Launch(s: State, t: nat, nonblock: bool, ok: bool): State
    requires t < |s.pcs|
  {
    var s1 := s.(waiting := s.count > 0 && !nonblock, started := true);
    if ok then Retest(s1, t) else At(s1.(started := false, waiting := false), t, Leaving(false))
  }

  /** The next step of a call to pwm_ioctl. */
  function Perform(s: State, t: nat, ok: bool): State
    requires Enabled(s, Act(t, ok))
  {
    match s.pcs[t]
    case Entered(SetCharacteristics(count)) => At(s.(count := count), t, Leaving(if s.started then ok else true))
    case Entered(Start(nonblock)) => At(s, t, if s.started then Leaving(true) else Launching(nonblock))
    case Entered(Stop) => At(s, t, if s.started then Stopping else Leaving(true))
    case Entered(Other) => At(s, t, Leaving(ok))
    case Launching(nonblock) => Launch(s, t, nonblock, ok)
    case Stopping => At(s.(started := false, waiting := false), t, Leaving(ok))
  }

  /** pwm_expired. */
  function Expire(s: State): State {
    if !s.started then s
    else s.(started := false, waiting := false, waitsem := if s.waiting then s.waitsem + 1 else s.waitsem)
  }

  function Next(s: State, e: Event): (s': State)
    requires Enabled(s, e)
    ensures |s'.pcs| == |s.pcs|
  {
    match e
    case Enter(t, cmd) => At(s.(holder := Some(t)), t, Entered(cmd))
    case Act(t, ok) => Perform(s, t, ok)
    case Wake(t) => Retest(s.(waitsem := s.waitsem - 1), t)
    case Interrupted(t) => Retest(s, t)
    case Leave(t) => At(s.(holder := None), t, Idle)
    case Expired => Expire(s)
  }

  /** The mutex has one holder and everyone else is outside; a thread waits for a running train
      and holds the mutex; a waiter whose train has ended will get a count. */
  ghost predicate Inv(s: State) {
    && (forall t | 0 <= t < |s.pcs| :: s.pcs[t] != Idle <==> s.holder == Some(t))
    && (s.waiting ==> s.started && s.holder.Some? && s.holder.value < |s.pcs| && s.pcs[s.holder.value] == Waiting)
    && (forall t | 0 <= t < |s.pcs| :: s.pcs[t] == Waiting && !s.waiting ==> s.waitsem > 0)
    && (forall t | 0 <= t < |s.pcs| :: s.pcs[t].Launching? ==> !s.started)
  }

  lemma PerformKeepsInv(s: State, t: nat, ok: bool)
    requires Inv(s) && Enabled(s, Act(t, ok))
    ensures Inv(Perform(s, t, ok))
  {
  }

  lemma StepKeepsInv(s: State, e: Event)
    requires Inv(s) && Enabled(s, e)
    ensures Inv(Next(s, e))
  {
    hide Perform;
    match e
    case Act(t, ok) => PerformKeepsInv(s, t, ok);
    case _ =>
  }

  /** A run of the machine: states[i] takes the step events[i] to states[i + 1]. */
  ghost predicate Run(states: seq<State>, events: seq<Event>) {
    && |states| == |events| + 1 && Init(states[0])
    && forall i | 0 <= i < |events| :: Enabled(states[i], events[i]) && states[i + 1] == Next(states[i], events[i])
  }

  lemma {:induction false} Reachable(states: seq<State>, events: seq<Event>, i: nat)
    requires Run(states, events) && i < |states|
    ensures Inv(states[i])
  {
    if i > 0 {
      Reachable(states, events, i - 1);
      StepKeepsInv(states[i - 1], events[i - 1]);
    }
  }

  /** In every reachable state, waiting means that the train runs and that its starter holds
      the mutex, so PWMIOC_STOP never finds a waiter. */
  lemma StopFindsNoWaiter(states: seq<State>, events: seq<Event>, i: nat, t: nat)
    requires Run(states, events) && i < |states| && t < |states[i].pcs|
    ensures states[i].waiting ==> states[i].started && states[i].holder.Some? && states[i].holder.value < |states[i].pcs|
                                  && states[i].pcs[states[i].holder.value] == Waiting
    ensures states[i].pcs[t] == Stopping || states[i].pcs[t] == Entered(Stop) ==> !states[i].waiting
  {
    Reachable(states, events, i);
  }

  /** Thread t sleeps until its train ends. */
  predicate InTrain(s: State, t: nat) {
    t < |s.pcs| && s.pcs[t] == Waiting && s.waiting
  }

  /** Until the train ends, the thread that started it stays in its wait, whatever wakes it. */
  lemma StaysInTrain(s: State, e: Event, t: nat)
    requires Inv(s) && Enabled(s, e) && InTrain(s, t) && e != Expired
    ensures InTrain(Next(s, e), t)
  {
  }

  /** Step i starts a pulse train for a blocking call with a count. */
  predicate StartsTrain(s: State, e: Event, t: nat) {
    t < |s.pcs| && e == Act(t, true) && s.pcs[t] == Launching(false) && s.count > 0
  }

  lemma TrainStarts(s: State, e: Event, t: nat)
    requires StartsTrain(s, e, t)
    ensures Enabled(s, e) && InTrain(Next(s, e), t)
  {
  }

  lemma {:induction false} TrainHolds(states: seq<State>, events: seq<Event>, i: nat, j: nat, t: nat)
    requires Run(states, events) && i < j < |states| && StartsTrain(states[i], events[i], t)
    requires forall k | i < k < j :: events[k] != Expired
    ensures InTrain(states[j], t)
  {
    hide Inv, Init, Next, Enabled, InTrain, StartsTrain;
    if j == i + 1 {
      TrainStarts(states[i], events[i], t);
    } else {
      TrainHolds(states, events, i, j - 1, t);
      Reachable(states, events, j - 1);
      StaysInTrain(states[j - 1], events[j - 1], t);
    }
  }

  /** A blocking call that starts a train with a count gets out of its wait only after a
      pwm_expired that came later, despite interrupted waits and counts left over from earlier
      calls. */
  lemma StartWaitsForExpiry(states: seq<State>, events: seq<Event>, i: nat, j: nat, t: nat)
    requires Run(states, events) && i < j < |states| && StartsTrain(states[i], events[i], t)
    requires !InTrain(states[j], t)
    ensures exists k | i < k < j :: events[k] == Expired
  {
    if forall k | i < k < j :: events[k] != Expired {
      TrainHolds(states, events, i, j, t);
    }
  }

  /** No wake-up is lost: once its train has ended, a waiter's sem_wait gets a count, and the
      call then returns OK. */
  lemma EndedTrainReleases(states: seq<State>, events: seq<Event>, i: nat, t: nat)
    requires Run(states, events) && i < |states| && t < |states[i].pcs|
    requires states[i].pcs[t] == Waiting && !states[i].waiting
    ensures Enabled(states[i], Wake(t)) && Next(states[i], Wake(t)).pcs[t] == Leaving(true)
  {
    Reachable(states, events, i);
  }

  /** One more step of a run that ends in s. */
  ghost predicate Reaches(events: seq<Event>, s: State) {
    exists states :: Run(states, events) && states[|events|] == s
  }

  lemma ReachesNext(events: seq<Event>, s: State, e: Event)
    requires Reaches(events, s) && Enabled(s, e)
    ensures Reaches(events + [e], Next(s, e))
  {
    var states :| Run(states, events) && states[|events|] == s;
    assert Run(states + [Next(s, e)], events + [e]);
  }

  lemma NoSteps(s: State)
    requires Init(s)
    ensures Reaches([], s)
  {
    assert Run([s], []);
  }

  /** Counts can be left over: an interrupted wait after the end of the train keeps the count. */
  lemma LeftOverCount()
    ensures exists events, s :: Reaches(events, s) && s.waitsem == 1 && s.holder == None
  {
    hide Run, Reaches;
    var s, events := State(false, false, 0, 0, None, [Idle]), [];
    NoSteps(s);
    ReachesNext(events, s, Enter(0, SetCharacteristics(3)));
    s, events := State(false, false, 0, 0, Some(0), [Entered(SetCharacteristics(3))]), events + [Enter(0, SetCharacteristics(3))];
    ReachesNext(events, s, Act(0, true));
    s, events := State(false, false, 0, 3, Some(0), [Leaving(true)]), events + [Act(0, true)];
    ReachesNext(events, s, Leave(0));
    s, events := State(false, false, 0, 3, None, [Idle]), events + [Leave(0)];
    ReachesNext(events, s, Enter(0, Start(false)));
    s, events := State(false, false, 0, 3, Some(0), [Entered(Start(false))]), events + [Enter(0, Start(false))];
    ReachesNext(events, s, Act(0, true));
    s, events := State(false, false, 0, 3, Some(0), [Launching(false)]), events + [Act(0, true)];
    ReachesNext(events, s, Act(0, true));
    s, events := State(true, true, 0, 3, Some(0), [Waiting]), events + [Act(0, true)];
    ReachesNext(events, s, Expired);
    s, events := State(false, false, 1, 3, Some(0), [Waiting]), events + [Expired];
    ReachesNext(events, s, Interrupted(0));
    s, events := State(false, false, 1, 3, Some(0), [Leaving(true)]), events + [Interrupted(0)];
    ReachesNext(events, s, Leave(0));
    s, events := State(false, false, 1, 3, None, [Idle]), events + [Leave(0)];
  }
}

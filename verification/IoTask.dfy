/**
  The input task of user/main.c (io_task) as a step machine, interleaved in every possible way
  with other tasks and interrupts that post messages, write inputs and change the registration.
*/
module IoTask {

  const QUEUE_SIZE: nat := 32
  const INPUTS: nat := 8
  const MSG_PINS: nat := 0x55
  const MSG_VIRTUAL: nat := 0xaa

  /** Where io_task is: the registration check, the pend, the filter delay, the message, and the three command tests. */
  datatype Pc = Top | Pend | Filter(msg: nat) | Handle(msg: nat) | Test(i: nat) | Act(i: nat)

  /** What became of a taken message; seen is how many messages had been accepted when the queue was queried. */
  datatype Fate = Dropped(seen: nat) | Kept(seen: nat)

  datatype Event = Wrote(i: nat, v: nat) | Executed(i: nat)

  /** accepted, taken, fates and log record the past; the rest is io_task's and the queue's state. */
  datatype State = State(
    pc: Pc, registered: bool, queue: seq<nat>, inputs: seq<nat>,
    accepted: seq<nat>, taken: seq<nat>, fates: seq<Fate>, log: seq<Event>)

  /** One step of io_task, or one of the others': posting, writing an input, registering. */
  datatype Action = TaskStep(pins: seq<nat>, running: bool) | Post(msg: nat) | WriteInput(i: nat, v: nat) | Register(on: bool)

  function Init(registered: bool): State {
    State(Top, registered, [], seq(INPUTS, _ => 1), [], [], [], [])
  }

  function Put(s: State, i: nat, v: nat): (t: State)
    requires |s.inputs| == INPUTS
    ensures |t.inputs| == INPUTS && t == s.(inputs := t.inputs, log := t.log)
  {
    if i < INPUTS then s.(inputs := s.inputs[i := v], log := s.log + [Wrote(i, v)]) else s
  }

  /** The command tests come in this order. */
  function AfterTest(i: nat): Pc {
    if i == 1 then Test(3) else if i == 3 then Test(6) else Top
  }

  /** What sampling the pins stores, in order; while the system runs, three inputs are held at 1. */
  function Samples(pins: seq<nat>, running: bool): seq<(nat, nat)> {
    var pin := (i: nat) => if i < |pins| then pins[i] else 1;
    var held := (i: nat) => if running then 1 else pin(i);
    [(0, pin(0)), (2, pin(2)), (1, held(1)), (3, held(3)), (4, held(4)), (5, pin(5)), (6, pin(6)), (7, pin(7))]
  }

  function PutAll(s: State, writes: seq<(nat, nat)>): (t: State)
    requires |s.inputs| == INPUTS
    ensures |t.inputs| == INPUTS && t == s.(inputs := t.inputs, log := t.log)
    decreases |writes|
  {
    if writes == [] then s else PutAll(Put(s, writes[0].0, writes[0].1), writes[1..])
  }

  function Next(s: State, a: Action): (t: State)
    requires |s.inputs| == INPUTS
    ensures |t.inputs| == INPUTS
  {
    match a
    case Post(m) =>
      if |s.queue| >= QUEUE_SIZE then s else s.(queue := s.queue + [m], accepted := s.accepted + [m])
    case WriteInput(i, v) => Put(s, i, v)
    case Register(on) => s.(registered := on)
    case TaskStep(pins, running) =>
      match s.pc
      case Top => if s.registered then s.(pc := Pend) else s
      case Pend =>
        if s.queue == [] then s
        else s.(pc := Filter(s.queue[0]), queue := s.queue[1..], taken := s.taken + [s.queue[0]])
      case Filter(m) =>
        if s.queue != [] then s.(pc := Top, fates := s.fates + [Dropped(|s.accepted|)])
        else s.(pc := Handle(m), fates := s.fates + [Kept(|s.accepted|)])
      case Handle(m) =>
        if m == MSG_PINS then PutAll(s, Samples(pins, running)).(pc := Test(1))
        else if m == MSG_VIRTUAL then s.(pc := Test(1))
        else s.(pc := Top)
      case Test(i) => if i < INPUTS && s.inputs[i] == 0 then s.(pc := Act(i)) else s.(pc := AfterTest(i))
      case Act(i) =>
        var set_ := Put(s, i, 1);
        set_.(log := set_.log + [Executed(i)], pc := AfterTest(i))
  }

  /** The state after a whole run. */
  function Run(registered: bool, actions: seq<Action>): (s: State)
    ensures |s.inputs| == INPUTS
  {
    if actions == [] then Init(registered)
    else Next(Run(registered, actions[..|actions| - 1]), actions[|actions| - 1])
  }

  // ---- the fate of messages ----

  function Pending(s: State): nat {
    if s.pc.Filter? then 1 else 0
  }

  /**
    Messages are conserved and kept in order, and each is judged by the queue as it stood at the query:
    dropped exactly when a newer one had been accepted by then.
  */
  ghost predicate MessagesOk(s: State) {
    && s.accepted == s.taken + s.queue
    && |s.queue| <= QUEUE_SIZE
    && |s.taken| == |s.fates| + Pending(s)
    && (s.pc.Filter? || s.pc.Handle? ==> s.taken != [] && s.taken[|s.taken| - 1] == s.pc.msg)
    && forall k :: 0 <= k < |s.fates| ==>
         k < s.fates[k].seen <= |s.accepted| && (s.fates[k].Dropped? <==> s.fates[k].seen > k + 1)
  }

  lemma {:induction false} MessagesConserved(registered: bool, actions: seq<Action>)
    ensures MessagesOk(Run(registered, actions))
  {
    if actions != [] {
      var before := actions[..|actions| - 1];
      MessagesConserved(registered, before);
      MessageStep(Run(registered, before), actions[|actions| - 1]);
    }
  }

  lemma MessageStep(s: State, a: Action)
    requires |s.inputs| == INPUTS && MessagesOk(s)
    ensures MessagesOk(Next(s, a))
  {
    hide Put, PutAll, Samples;
    if a.TaskStep? {
      TaskMessageStep(s, a);
    }
  }

  lemma TaskMessageStep(s: State, a: Action)
    requires |s.inputs| == INPUTS && MessagesOk(s) && a.TaskStep?
    ensures MessagesOk(Next(s, a))
  {
    hide Put, PutAll, Samples;
    if s.pc.Pend? {
      if s.queue != [] {
        assert s.queue == [s.queue[0]] + s.queue[1..];
      }
    } else if s.pc.Filter? {
      JudgedOk(s, if s.queue != [] then Dropped(|s.accepted|) else Kept(|s.accepted|), if s.queue != [] then Top else Handle(s.pc.msg));
    } else {
      MovedOk(s, Next(s, a));
    }
  }

  /** A message in hand is judged. */
  lemma JudgedOk(s: State, fate: Fate, pc: Pc)
    requires MessagesOk(s) && s.pc.Filter? && !pc.Filter? && (pc.Handle? ==> pc.msg == s.pc.msg)
    requires fate.seen == |s.accepted| && (fate.Dropped? <==> s.queue != [])
    ensures MessagesOk(s.(pc := pc, fates := s.fates + [fate]))
  {
  }

  /** Nothing happens to messages. */
  lemma MovedOk(s: State, t: State)
    requires MessagesOk(s) && !s.pc.Filter? && !t.pc.Filter? && !t.pc.Handle?
    requires t.accepted == s.accepted && t.taken == s.taken && t.queue == s.queue && t.fates == s.fates
    ensures MessagesOk(t)
  {
  }

  /** Once the queue has drained and no message is in hand, the last accepted message was kept, whatever happened before. */
  lemma LastMessageKept(registered: bool, actions: seq<Action>)
    requires var s := Run(registered, actions);
             s.queue == [] && !s.pc.Filter? && s.accepted != []
    ensures var s := Run(registered, actions);
            && s.taken == s.accepted
            && |s.fates| == |s.accepted|
            && s.fates[|s.fates| - 1] == Kept(|s.accepted|)
  {
    MessagesConserved(registered, actions);
  }

  /** How many steps io_task is from its pend, at most. */
  function Rank(pc: Pc): nat {
    match pc
    case Pend => 0
    case Top => 1
    case Filter(_) => 12
    case Handle(_) => 11
    case Test(i) => if i == 1 then 10 else if i == 3 then 8 else if i == 6 then 6 else 3
    case Act(i) => if i == 1 then 9 else if i == 3 then 7 else if i == 6 then 5 else 2
  }

  /** How many of its own steps io_task needs, at most, to drain its queue and come to rest at the pend. */
  function Work(s: State): nat {
    13 * |s.queue| + Rank(s.pc)
  }

  /** A step of io_task, or of others that post nothing and leave it registered. */
  predicate Quiet(a: Action) {
    a.TaskStep? || a.WriteInput? || a == Register(true)
  }

  function TaskSteps(actions: seq<Action>): nat {
    if actions == [] then 0
    else TaskSteps(actions[..|actions| - 1]) + if actions[|actions| - 1].TaskStep? then 1 else 0
  }

  lemma QuietStep(s: State, a: Action)
    requires |s.inputs| == INPUTS && Quiet(a) && s.registered
    ensures var t := Next(s, a);
            && t.registered && t.accepted == s.accepted
            && Work(t) <= Work(s) && (a.TaskStep? && Work(s) > 0 ==> Work(t) < Work(s))
  {
    hide Put, PutAll, Samples;
  }

  /** Once nothing is posted any more, each of its steps brings a registered io_task closer to rest. */
  lemma {:induction false} QuietRun(registered: bool, actions: seq<Action>, more: seq<Action>)
    requires Run(registered, actions).registered
    requires forall k :: 0 <= k < |more| ==> Quiet(more[k])
    ensures var s, t := Run(registered, actions), Run(registered, actions + more);
            && t.registered && t.accepted == s.accepted
            && (Work(t) == 0 || Work(t) + TaskSteps(more) <= Work(s))
    decreases |more|
  {
    hide Next, Work, Quiet;
    if more == [] {
      assert actions + more == actions;
    } else {
      var before, a := more[..|more| - 1], more[|more| - 1];
      QuietRun(registered, actions, before);
      assert (actions + more)[..|actions + more| - 1] == actions + before;
      QuietStep(Run(registered, actions + before), a);
    }
  }

  /**
    So once posting stops, whatever else is written meanwhile, the last message that was accepted is the one
    that is kept, as soon as io_task has been given that many steps; then it waits at the pend.
  */
  lemma LastPostWins(registered: bool, actions: seq<Action>, more: seq<Action>)
    requires Run(registered, actions).registered && Run(registered, actions).accepted != []
    requires forall k :: 0 <= k < |more| ==> Quiet(more[k])
    requires TaskSteps(more) >= Work(Run(registered, actions))
    ensures var s, t := Run(registered, actions), Run(registered, actions + more);
            && t.pc == Pend && t.queue == []
            && t.taken == s.accepted && |t.fates| == |s.accepted|
            && t.fates[|t.fates| - 1] == Kept(|s.accepted|)
  {
    hide Run, Next, Work, Quiet, TaskSteps;
    QuietRun(registered, actions, more);
    AtRest(Run(registered, actions + more));
    LastMessageKept(registered, actions + more);
  }

  lemma AtRest(s: State)
    requires Work(s) == 0
    ensures s.pc == Pend && s.queue == []
  {
  }

  // ---- commands ----

  /** The log holds a zero written to input i after its last execution, or no execution and any zero. */
  ghost predicate FreshZero(log: seq<Event>, i: nat) {
    exists r :: 0 <= r < |log| && log[r] == Wrote(i, 0) && forall p :: r < p < |log| ==> log[p] != Executed(i)
  }

  /** Between two executions of a command its input was written zero. */
  ghost predicate Spaced(log: seq<Event>) {
    forall p, q :: 0 <= p < q < |log| && log[p].Executed? && log[q] == log[p] ==>
      exists r :: p < r < q && log[r] == Wrote(log[p].i, 0)
  }

  /** A zero in an input, and a command about to run, go back to a zero written since the command last ran. */
  ghost predicate CommandsOk(s: State) {
    && |s.inputs| == INPUTS
    && (forall i :: 0 <= i < INPUTS && s.inputs[i] == 0 ==> FreshZero(s.log, i))
    && (s.pc.Act? ==> s.pc.i < INPUTS && FreshZero(s.log, s.pc.i))
    && Spaced(s.log)
  }

  lemma FreshKept(log: seq<Event>, e: Event, i: nat)
    ensures e == Wrote(i, 0) ==> FreshZero(log + [e], i)
    ensures FreshZero(log, i) && e != Executed(i) ==> FreshZero(log + [e], i)
  {
    if e == Wrote(i, 0) {
      assert (log + [e])[|log|] == e;
    }
    if FreshZero(log, i) && e != Executed(i) {
      var r :| 0 <= r < |log| && log[r] == Wrote(i, 0) && forall p :: r < p < |log| ==> log[p] != Executed(i);
      assert (log + [e])[r] == Wrote(i, 0);
    }
  }

  lemma PutOk(s: State, i: nat, v: nat)
    requires CommandsOk(s)
    ensures CommandsOk(Put(s, i, v)) && Put(s, i, v).pc == s.pc
  {
    if i < INPUTS {
      forall j | 0 <= j < INPUTS
        ensures v == 0 && i == j ==> FreshZero(s.log + [Wrote(i, v)], j)
        ensures FreshZero(s.log, j) ==> FreshZero(s.log + [Wrote(i, v)], j)
      {
        FreshKept(s.log, Wrote(i, v), j);
      }
      LogGrows(s.log, Wrote(i, v));
    }
  }

  lemma LogGrows(log: seq<Event>, e: Event)
    requires Spaced(log)
    requires e.Executed? ==> FreshZero(log, e.i)
    ensures Spaced(log + [e])
  {
    var after := log + [e];
    forall p, q | 0 <= p < q < |after| && after[p].Executed? && after[q] == after[p]
      ensures exists r :: p < r < q && after[r] == Wrote(after[p].i, 0)
    {
      if q < |log| {
        var r :| p < r < q && log[r] == Wrote(log[p].i, 0);
        assert after[r] == Wrote(after[p].i, 0);
      } else {
        var r :| 0 <= r < |log| && log[r] == Wrote(e.i, 0) && forall x :: r < x < |log| ==> log[x] != Executed(e.i);
        assert after[r] == Wrote(after[p].i, 0);
        assert log[p] == Executed(e.i);
      }
    }
  }

  lemma {:induction false} PutAllOk(s: State, writes: seq<(nat, nat)>)
    requires CommandsOk(s)
    ensures CommandsOk(PutAll(s, writes)) && PutAll(s, writes).pc == s.pc
    decreases |writes|
  {
    hide CommandsOk, Put;
    if writes != [] {
      Sized(s);
      PutOk(s, writes[0].0, writes[0].1);
      PutAllOk(Put(s, writes[0].0, writes[0].1), writes[1..]);
    }
  }

  lemma Sized(s: State)
    requires CommandsOk(s)
    ensures |s.inputs| == INPUTS
  {
  }

  /** Moving the program counter to anywhere but a command keeps the invariant. */
  lemma MoveOk(s: State, t: State)
    requires CommandsOk(s) && t.inputs == s.inputs && t.log == s.log
    requires t.pc.Act? ==> (t.pc.i < INPUTS && s.inputs[t.pc.i] == 0) || t.pc == s.pc
    ensures CommandsOk(t)
  {
  }

  /** Running a command uses its fresh zero up: the input is 1 again. */
  lemma ActOk(s: State)
    requires CommandsOk(s) && s.pc.Act?
    ensures var i, set_ := s.pc.i, Put(s, s.pc.i, 1);
            CommandsOk(set_.(log := set_.log + [Executed(i)], pc := AfterTest(i)))
  {
    var i := s.pc.i;
    var set_ := Put(s, i, 1);
    PutOk(s, i, 1);
    LogGrows(set_.log, Executed(i));
    forall j | 0 <= j < INPUTS && set_.inputs[j] == 0
      ensures FreshZero(set_.log + [Executed(i)], j)
    {
      FreshKept(set_.log, Executed(i), j);
    }
  }

  lemma CommandStep(s: State, a: Action)
    requires CommandsOk(s)
    ensures |s.inputs| == INPUTS && CommandsOk(Next(s, a))
  {
    Sized(s);
    hide CommandsOk, Put, PutAll, Samples;
    match a
    case Post(m) => MoveOk(s, Next(s, a));
    case WriteInput(i, v) => PutOk(s, i, v);
    case Register(on) => MoveOk(s, Next(s, a));
    case TaskStep(pins, running) =>
      match s.pc {
        case Handle(m) =>
          PutAllOk(s, Samples(pins, running));
          MoveOk(PutAll(s, Samples(pins, running)), PutAll(s, Samples(pins, running)).(pc := Test(1)));
          MoveOk(s, s.(pc := Test(1)));
          MoveOk(s, s.(pc := Top));
        case Act(i) => ActOk(s);
        case _ => MoveOk(s, Next(s, a));
      }
  }

  /** In every run, each execution of a command answers a zero written to its input since the command last ran. */
  lemma {:induction false} CommandsAnswerZeros(registered: bool, actions: seq<Action>)
    ensures CommandsOk(Run(registered, actions))
  {
    hide CommandsOk, Next;
    if actions == [] {
      InitOk(registered);
    } else {
      var before := actions[..|actions| - 1];
      CommandsAnswerZeros(registered, before);
      CommandStep(Run(registered, before), actions[|actions| - 1]);
    }
  }

  lemma InitOk(registered: bool)
    ensures CommandsOk(Init(registered))
  {
  }
}

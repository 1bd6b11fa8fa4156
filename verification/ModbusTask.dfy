/**
  The Modbus task of user/main.c (modbusRTU_msg_task) as a step machine.  It takes requests for two
  serial ports, stops the port's receiver while a frame is answered, and starts it again.
*/
module ModbusTask {

  const REQUEST_1: nat := 0x55
  const REQUEST_3: nat := 0xA5
  const DONE: nat := 0xaa
  const MIN_LEN: nat := 8

  datatype Port = Port1 | Port3
  datatype Tty = Idle | Console | Modbus

  /** At the outer pend, or at the inner pend of a port whose frame is being answered. */
  datatype Pc = Outer | Waiting(port: Port)

  /** A received frame as the Modbus task looks at it: its length and first byte, and the address it is compared with. */
  datatype Frame = Frame(len: nat, first: nat, addr: nat)

  datatype Event =
    | Took(msg: nat)
    | Swallowed(msg: nat)
    | TimedOut
    | Stopped(port: Port)
    | Analyzed(port: Port, frame: Frame)
    | Started(port: Port)

  datatype State = State(pc: Pc, tty: Tty, log: seq<Event>)

  /** A message with the frames as they stand when it is taken, a timeout of the inner pend, or another task setting tty. */
  datatype Action = Message(msg: nat, frame1: Frame, frame3: Frame) | Timeout | SetTty(tty: Tty)

  predicate Acceptable(f: Frame) {
    f.len > MIN_LEN - 1 && f.first == f.addr
  }

  function Request(port: Port): nat {
    if port == Port1 then REQUEST_1 else REQUEST_3
  }

  /** One branch of the outer switch. */
  function Serve(s: State, port: Port, f: Frame): State {
    if Acceptable(f) then s.(pc := Waiting(port), log := s.log + [Stopped(port), Analyzed(port, f)])
    else s.(log := s.log + [Started(port)])
  }

  function Next(s: State, a: Action): State {
    match a
    case SetTty(t) => s.(tty := t)
    case Timeout =>
      if s.pc.Waiting? then s.(pc := Outer, log := s.log + [TimedOut, Started(s.pc.port)]) else s
    case Message(m, f1, f3) =>
      match s.pc
      case Outer =>
        var t := s.(log := s.log + [Took(m)]);
        if m == REQUEST_1 then Serve(t, Port1, f1)
        else if m == REQUEST_3 then Serve(t, Port3, f3)
        else t
      case Waiting(p) =>
        var tty' := if m == DONE && p == Port1 && s.tty == Modbus then Idle else s.tty;
        State(Outer, tty', s.log + [Swallowed(m), Started(p)])
  }

  function Run(tty: Tty, actions: seq<Action>): State {
    if actions == [] then State(Outer, tty, [])
    else Next(Run(tty, actions[..|actions| - 1]), actions[|actions| - 1])
  }

  /** Whether the Modbus task has the port's receiver stopped after the events of the log. */
  function IsStopped(log: seq<Event>, port: Port): bool {
    if log == [] then false
    else
      var e := log[|log| - 1];
      if e == Stopped(port) then true
      else if e == Started(port) then false
      else IsStopped(log[..|log| - 1], port)
  }

  function CountOf(log: seq<Event>, e: Event): nat {
    if log == [] then 0 else CountOf(log[..|log| - 1], e) + if log[|log| - 1] == e then 1 else 0
  }

  lemma AppendOne(log: seq<Event>, e: Event, port: Port, x: Event)
    ensures IsStopped(log + [e], port) == if e == Stopped(port) then true else if e == Started(port) then false else IsStopped(log, port)
    ensures CountOf(log + [e], x) == CountOf(log, x) + if e == x then 1 else 0
  {
    assert (log + [e])[..|log|] == log;
  }

  /** After any prefix of the log at most one receiver is stopped. */
  ghost predicate Exclusive(log: seq<Event>) {
    forall k :: 0 <= k <= |log| ==> !(IsStopped(log[..k], Port1) && IsStopped(log[..k], Port3))
  }

  /** A frame is analyzed only if it passed the checks, and only with its receiver stopped. */
  ghost predicate Guarded(log: seq<Event>) {
    forall k :: 0 <= k < |log| && log[k].Analyzed? ==>
      log[k].frame.len >= 8 && log[k].frame.first == log[k].frame.addr && IsStopped(log[..k], log[k].port)
  }

  /** Every request taken at the outer pend has restarted its receiver, except the one being answered. */
  ghost predicate Balanced(s: State, port: Port) {
    CountOf(s.log, Took(Request(port))) == CountOf(s.log, Started(port)) + if s.pc == Waiting(port) then 1 else 0
  }

  ghost predicate LockOk(s: State) {
    && Exclusive(s.log) && Guarded(s.log)
    && (forall p: Port :: IsStopped(s.log, p) <==> s.pc == Waiting(p))
    && Balanced(s, Port1) && Balanced(s, Port3)
  }

  lemma GrowOne(log: seq<Event>, e: Event)
    requires Exclusive(log) && Guarded(log)
    requires e.Analyzed? ==> Acceptable(e.frame) && IsStopped(log, e.port)
    requires e.Stopped? ==> !IsStopped(log, Port1) && !IsStopped(log, Port3)
    ensures Exclusive(log + [e]) && Guarded(log + [e])
  {
    var after := log + [e];
    AppendOne(log, e, Port1, e);
    AppendOne(log, e, Port3, e);
    forall k | 0 <= k <= |after|
      ensures !(IsStopped(after[..k], Port1) && IsStopped(after[..k], Port3))
    {
      assert after[..k] == if k <= |log| then log[..k] else after;
      assert log[..|log|] == log;
    }
    forall k | 0 <= k < |after| && after[k].Analyzed?
      ensures after[k].frame.len >= 8 && after[k].frame.first == after[k].frame.addr && IsStopped(after[..k], after[k].port)
    {
      assert after[..k] == log[..k];
      assert log[..|log|] == log;
    }
  }

  /** What one event changes. */
  lemma Grow(log: seq<Event>, e: Event)
    requires Exclusive(log) && Guarded(log)
    requires e.Analyzed? ==> Acceptable(e.frame) && IsStopped(log, e.port)
    requires e.Stopped? ==> !IsStopped(log, Port1) && !IsStopped(log, Port3)
    ensures Exclusive(log + [e]) && Guarded(log + [e])
    ensures forall p: Port :: IsStopped(log + [e], p) ==
              if e == Stopped(p) then true else if e == Started(p) then false else IsStopped(log, p)
    ensures forall x :: CountOf(log + [e], x) == CountOf(log, x) + if e == x then 1 else 0
  {
    GrowOne(log, e);
    forall p: Port, x
      ensures IsStopped(log + [e], p) == if e == Stopped(p) then true else if e == Started(p) then false else IsStopped(log, p)
      ensures CountOf(log + [e], x) == CountOf(log, x) + if e == x then 1 else 0
    {
      AppendOne(log, e, p, x);
    }
  }

  lemma ServeOk(s: State, port: Port, f: Frame)
    requires LockOk(s) && s.pc == Outer
    ensures LockOk(Serve(s.(log := s.log + [Took(Request(port))]), port, f))
  {
    hide IsStopped, CountOf, Exclusive, Guarded, Acceptable;
    var took := s.log + [Took(Request(port))];
    Grow(s.log, Took(Request(port)));
    if Acceptable(f) {
      Grow(took, Stopped(port));
      Grow(took + [Stopped(port)], Analyzed(port, f));
      assert took + [Stopped(port)] + [Analyzed(port, f)] == took + [Stopped(port), Analyzed(port, f)];
    } else {
      Grow(took, Started(port));
    }
  }

  lemma FinishOk(s: State, e: Event, tty: Tty)
    requires LockOk(s) && s.pc.Waiting? && (e.Swallowed? || e.TimedOut?)
    ensures LockOk(State(Outer, tty, s.log + [e, Started(s.pc.port)]))
  {
    hide IsStopped, CountOf, Exclusive, Guarded;
    Grow(s.log, e);
    Grow(s.log + [e], Started(s.pc.port));
    assert s.log + [e] + [Started(s.pc.port)] == s.log + [e, Started(s.pc.port)];
  }

  lemma IgnoreOk(s: State, m: nat)
    requires LockOk(s) && s.pc == Outer && m != REQUEST_1 && m != REQUEST_3
    ensures LockOk(s.(log := s.log + [Took(m)]))
  {
    hide IsStopped, CountOf, Exclusive, Guarded;
    Grow(s.log, Took(m));
  }

  lemma StepOk(s: State, a: Action)
    requires LockOk(s)
    ensures LockOk(Next(s, a))
  {
    hide LockOk, Serve;
    match a
    case SetTty(t) => TtyIrrelevant(s, t);
    case Timeout =>
      if s.pc.Waiting? {
        FinishOk(s, TimedOut, s.tty);
      }
    case Message(m, f1, f3) =>
      match s.pc {
        case Outer =>
          if m == REQUEST_1 {
            ServeOk(s, Port1, f1);
          } else if m == REQUEST_3 {
            ServeOk(s, Port3, f3);
          } else {
            IgnoreOk(s, m);
          }
        case Waiting(p) => FinishOk(s, Swallowed(m), Next(s, a).tty);
      }
  }

  lemma TtyIrrelevant(s: State, t: Tty)
    requires LockOk(s)
    ensures LockOk(s.(tty := t))
  {
  }

  /** In every run the receivers are locked properly: see LockOk. */
  lemma {:induction false} ReceiverLock(tty: Tty, actions: seq<Action>)
    ensures LockOk(Run(tty, actions))
  {
    hide LockOk, Next;
    if actions == [] {
      StartOk(tty);
    } else {
      var before := actions[..|actions| - 1];
      ReceiverLock(tty, before);
      StepOk(Run(tty, before), actions[|actions| - 1]);
    }
  }

  lemma StartOk(tty: Tty)
    ensures LockOk(State(Outer, tty, []))
  {
  }

  /** The number of requests for the port that arrived while the Modbus task was at its outer pend. */
  ghost function Answered(tty: Tty, actions: seq<Action>, port: Port): nat {
    if actions == [] then 0
    else
      var before, a := actions[..|actions| - 1], actions[|actions| - 1];
      Answered(tty, before, port) + if a.Message? && a.msg == Request(port) && Run(tty, before).pc == Outer then 1 else 0
  }

  /**
    A request is answered, by a restart of its receiver, exactly if the Modbus task is at its outer pend when
    the message arrives: the restarts of a port count those requests, less the one still in progress.
  */
  lemma {:induction false} AnsweredExactly(tty: Tty, actions: seq<Action>, port: Port)
    ensures var s := Run(tty, actions);
            && CountOf(s.log, Took(Request(port))) == Answered(tty, actions, port)
            && CountOf(s.log, Started(port)) + (if s.pc == Waiting(port) then 1 else 0) == Answered(tty, actions, port)
  {
    if actions != [] {
      var before, a := actions[..|actions| - 1], actions[|actions| - 1];
      AnsweredExactly(tty, before, port);
      TookStep(Run(tty, before), a, port);
    }
    ReceiverLock(tty, actions);
    hide CountOf, Answered, Run, IsStopped;
  }

  lemma TookStep(s: State, a: Action, port: Port)
    ensures CountOf(Next(s, a).log, Took(Request(port)))
         == CountOf(s.log, Took(Request(port))) + if a.Message? && a.msg == Request(port) && s.pc == Outer then 1 else 0
  {
    hide CountOf, Serve;
    var x := Took(Request(port));
    match a
    case SetTty(_) =>
    case Timeout =>
      if s.pc.Waiting? {
        CountTwo(s.log, TimedOut, Started(s.pc.port), x);
      }
    case Message(m, f1, f3) =>
      if s.pc.Waiting? {
        CountTwo(s.log, Swallowed(m), Started(s.pc.port), x);
      } else {
        var took := s.log + [Took(m)];
        AppendOne(s.log, Took(m), port, x);
        ServeCount(s.(log := took), Port1, f1, x);
        ServeCount(s.(log := took), Port3, f3, x);
      }
  }

  lemma ServeCount(s: State, port: Port, f: Frame, x: Event)
    requires x.Took?
    ensures CountOf(Serve(s, port, f).log, x) == CountOf(s.log, x)
  {
    hide CountOf;
    CountTwo(s.log, Stopped(port), Analyzed(port, f), x);
    AppendOne(s.log, Started(port), port, x);
  }

  lemma CountTwo(log: seq<Event>, e: Event, f: Event, x: Event)
    ensures CountOf(log + [e, f], x) == CountOf(log, x) + (if e == x then 1 else 0) + if f == x then 1 else 0
  {
    AppendOne(log, e, Port1, x);
    AppendOne(log + [e], f, Port1, x);
    assert log + [e, f] == log + [e] + [f];
  }

  /** After any run that ended at the outer pend, what the next message does: 0x55 is for port 1 and 0xA5 for port 3. */
  lemma RequestServed(tty: Tty, actions: seq<Action>, m: nat, f1: Frame, f3: Frame)
    requires Run(tty, actions).pc == Outer
    ensures var s, t := Run(tty, actions), Run(tty, actions + [Message(m, f1, f3)]);
            var port, f := if m == 0x55 then Port1 else Port3, if m == 0x55 then f1 else f3;
            && t.tty == s.tty
            && if m != 0x55 && m != 0xA5 then t.pc == Outer && t.log == s.log + [Took(m)]
               else if f.len >= 8 && f.first == f.addr then
                 t.pc == Waiting(port) && t.log == s.log + [Took(m), Stopped(port), Analyzed(port, f)]
               else t.pc == Outer && t.log == s.log + [Took(m), Started(port)]
  {
    assert (actions + [Message(m, f1, f3)])[..|actions|] == actions;
  }

  /** And at an inner pend: any message or the timeout restarts the receiver; only 0xaa for port 1 gives the terminal free. */
  lemma AnswerEnds(tty: Tty, actions: seq<Action>, port: Port, m: nat, f1: Frame, f3: Frame)
    requires Run(tty, actions).pc == Waiting(port)
    ensures var s, t, u := Run(tty, actions), Run(tty, actions + [Message(m, f1, f3)]), Run(tty, actions + [Timeout]);
            && t.pc == Outer && u.pc == Outer
            && t.log == s.log + [Swallowed(m), Started(port)] && u.log == s.log + [TimedOut, Started(port)]
            && t.tty == (if m == 0xaa && port == Port1 && s.tty == Modbus then Idle else s.tty) && u.tty == s.tty
  {
    assert (actions + [Message(m, f1, f3)])[..|actions|] == actions && (actions + [Timeout])[..|actions|] == actions;
  }

  /**
    After any run that ended at the outer pend: when a sound request of either port is followed by one of the
    other port, whatever its frame, the second is lost; its receiver is never touched.
  */
  lemma RequestLost(tty: Tty, actions: seq<Action>, port: Port, a1: Frame, a3: Frame, b1: Frame, b3: Frame)
    requires Run(tty, actions).pc == Outer
    requires var f := if port == Port1 then a1 else a3;
             f.len >= 8 && f.first == f.addr
    ensures var m, n := if port == Port1 then 0x55 else 0xA5, if port == Port1 then 0xA5 else 0x55;
            var s, t := Run(tty, actions), Run(tty, actions + [Message(m, a1, a3)] + [Message(n, b1, b3)]);
            && t.log == s.log + [Took(m), Stopped(port), Analyzed(port, if port == Port1 then a1 else a3), Swallowed(n), Started(port)]
            && t.pc == Outer
  {
    hide Run;
    var m, n := if port == Port1 then 0x55 else 0xA5, if port == Port1 then 0xA5 else 0x55;
    RequestServed(tty, actions, m, a1, a3);
    AnswerEnds(tty, actions + [Message(m, a1, a3)], port, n, b1, b3);
  }
}

/**
  What io_task does with a message it keeps: the inputs it stores, the commands it runs for the zeros it finds,
  and in which order; and that it runs none otherwise.
*/
module IoCommands {
  import opened IoTask

  // ---- runs from any state ----

  function After(s: State, actions: seq<Action>): (t: State)
    requires |s.inputs| == INPUTS
    ensures |t.inputs| == INPUTS
  {
    if actions == [] then s else Next(After(s, actions[..|actions| - 1]), actions[|actions| - 1])
  }

  lemma {:induction false} RunAfter(registered: bool, actions: seq<Action>, more: seq<Action>)
    ensures Run(registered, actions + more) == After(Run(registered, actions), more)
    decreases |more|
  {
    hide Next;
    if more == [] {
      assert actions + more == actions;
    } else {
      var all := actions + more;
      assert all[..|all| - 1] == actions + more[..|more| - 1] && all[|all| - 1] == more[|more| - 1];
      RunAfter(registered, actions, more[..|more| - 1]);
    }
  }

  lemma {:induction false} AfterSum(s: State, a: seq<Action>, b: seq<Action>)
    requires |s.inputs| == INPUTS
    ensures After(s, a + b) == After(After(s, a), b)
    decreases |b|
  {
    hide Next;
    if b == [] {
      assert a + b == a;
    } else {
      var all := a + b;
      assert all[..|all| - 1] == a + b[..|b| - 1] && all[|all| - 1] == b[|b| - 1];
      AfterSum(s, a, b[..|b| - 1]);
    }
  }

  /** The commands that were run, in order. */
  function Commands(log: seq<Event>): seq<nat> {
    if log == [] then []
    else Commands(log[..|log| - 1]) + if log[|log| - 1].Executed? then [log[|log| - 1].i] else []
  }

  lemma CommandsMore(log: seq<Event>, e: Event)
    ensures Commands(log + [e]) == Commands(log) + if e.Executed? then [e.i] else []
  {
    assert (log + [e])[..|log + [e]| - 1] == log;
  }

  // ---- handling a message ----

  /** Handling 0x55 stores the eight pins, but 1, 3 and 4 are held at 1 while the system runs; 0xaa stores nothing. */
  lemma Handled(s: State, pins: seq<nat>, running: bool)
    requires |s.inputs| == 8 && |pins| == 8 && s.pc.Handle?
    ensures var t := Next(s, TaskStep(pins, running));
            && (s.pc.msg == 0x55 ==>
                  && t.pc == Test(1)
                  && (forall i :: 0 <= i < 8 ==> t.inputs[i] == if running && (i == 1 || i == 3 || i == 4) then 1 else pins[i])
                  && Commands(t.log) == Commands(s.log))
            && (s.pc.msg == 0xaa ==> t == s.(pc := Test(1)))
            && (s.pc.msg != 0x55 && s.pc.msg != 0xaa ==> t == s.(pc := Top))
  {
    hide Samples, PutAll, Put, Commands;
    if s.pc.msg == 0x55 {
      var w := Samples(pins, running);
      PinOrder(pins, running);
      StoresAll(s, w);
      assert forall k :: 0 <= k < 8 ==> PutAll(s, w).inputs[w[k].0] == w[k].1;
      assert w[2].0 == 1 && w[1].0 == 2 && w[0].0 == 0 && w[3].0 == 3 && w[4].0 == 4 && w[5].0 == 5 && w[6].0 == 6 && w[7].0 == 7;
    }
  }

  /** In every run a message that is judged to be kept is the one handled next; after a dropped one nothing is. */
  lemma KeptIsHandled(registered: bool, actions: seq<Action>, a: Action)
    requires |Run(registered, actions + [a]).fates| != |Run(registered, actions).fates|
    ensures var s, t := Run(registered, actions), Run(registered, actions + [a]);
            && |t.fates| == |s.fates| + 1 <= |t.taken|
            && t.pc == (if t.fates[|s.fates|].Kept? then Handle(t.taken[|s.fates|]) else Top)
            && t.inputs == s.inputs && t.log == s.log
  {
    hide Put, PutAll, Samples;
    assert (actions + [a])[..|actions|] == actions;
    MessagesConserved(registered, actions);
    MessagesConserved(registered, actions + [a]);
  }

  lemma PinOrder(pins: seq<nat>, running: bool)
    requires |pins| == 8
    ensures var w := Samples(pins, running);
            && |w| == 8 && w[0] == (0, pins[0]) && w[1] == (2, pins[2])
            && w[2] == (1, if running then 1 else pins[1])
            && w[3] == (3, if running then 1 else pins[3])
            && w[4] == (4, if running then 1 else pins[4])
            && w[5] == (5, pins[5]) && w[6] == (6, pins[6]) && w[7] == (7, pins[7])
  {
  }

  lemma PutEffect(s: State, i: nat, v: nat)
    requires |s.inputs| == INPUTS && i < INPUTS
    ensures Put(s, i, v).inputs == s.inputs[i := v] && Commands(Put(s, i, v).log) == Commands(s.log)
  {
    CommandsMore(s.log, Wrote(i, v));
  }

  /** Writes to different inputs leave all of them. */
  lemma {:induction false} StoresAll(s: State, writes: seq<(nat, nat)>)
    requires |s.inputs| == INPUTS && forall k :: 0 <= k < |writes| ==> writes[k].0 < INPUTS
    requires forall k, l :: 0 <= k < l < |writes| ==> writes[k].0 != writes[l].0
    ensures var t := PutAll(s, writes);
            && (forall k :: 0 <= k < |writes| ==> t.inputs[writes[k].0] == writes[k].1)
            && (forall i :: 0 <= i < INPUTS && i !in Targets(writes) ==> t.inputs[i] == s.inputs[i])
            && Commands(t.log) == Commands(s.log)
    decreases |writes|
  {
    hide Put, Commands;
    if writes != [] {
      var i, v, rest := writes[0].0, writes[0].1, writes[1..];
      PutEffect(s, i, v);
      StoresAll(Put(s, i, v), rest);
      assert i !in Targets(rest);
      assert Targets(writes) == {i} + Targets(rest) by {
        assert forall k :: 0 <= k < |rest| ==> rest[k] == writes[k + 1];
      }
      forall k | 0 < k < |writes|
        ensures writes[k] == rest[k - 1]
      {
      }
    }
  }

  ghost function Targets(writes: seq<(nat, nat)>): set<nat> {
    set k | 0 <= k < |writes| :: writes[k].0
  }

  // ---- one round of command tests ----

  predicate IsCommand(i: nat) {
    i == 1 || i == 3 || i == 6
  }

  /** How far a round has got: its tests, each followed by the command if that is run, and the end. */
  function Stage(pc: Pc): nat {
    if pc == Test(1) then 0 else if pc == Act(1) then 1 else if pc == Test(3) then 2 else if pc == Act(3) then 3
    else if pc == Test(6) then 4 else if pc == Act(6) then 5 else 6
  }

  function Due(i: nat): nat {
    if i == 1 then 1 else if i == 3 then 3 else 5
  }

  /** Nobody else writes that input. */
  predicate Unwritten(actions: seq<Action>, i: nat) {
    forall k :: 0 <= k < |actions| ==> !(actions[k].WriteInput? && actions[k].i == i)
  }

  /** What is known in the course of a round that began in s and has come to t after more, having run the commands d. */
  ghost predicate RoundOk(s: State, t: State, more: seq<Action>, d: seq<nat>)
    requires |s.inputs| == INPUTS && |t.inputs| == INPUTS
  {
    && (t.pc == Top || Stage(t.pc) < 6)
    && Commands(t.log) == Commands(s.log) + d
    && (forall k :: 0 <= k < |d| ==> IsCommand(d[k]) && Due(d[k]) < Stage(t.pc))
    && (forall k, l :: 0 <= k < l < |d| ==> d[k] < d[l])
    && forall i :: 0 <= i < INPUTS && IsCommand(i) && Unwritten(more, i) ==>
         if Due(i) < Stage(t.pc) then
           (i in d <==> s.inputs[i] == 0) && t.inputs[i] == if s.inputs[i] == 0 then 1 else s.inputs[i]
         else
           t.inputs[i] == s.inputs[i] && (Due(i) == Stage(t.pc) ==> s.inputs[i] == 0)
  }

  lemma OthersInRound(s: State, t: State, more: seq<Action>, d: seq<nat>, a: Action)
    requires |s.inputs| == INPUTS && |t.inputs| == INPUTS && RoundOk(s, t, more, d) && !a.TaskStep?
    ensures RoundOk(s, Next(t, a), more + [a], d)
  {
    hide Put, Commands, Unwritten;
    if a.WriteInput? {
      if a.i < INPUTS {
        PutEffect(t, a.i, a.v);
      } else {
        PutNothing(t, a.i, a.v);
      }
    }
    UnwrittenPart(more, a);
  }

  lemma UnwrittenPart(more: seq<Action>, a: Action)
    ensures forall i :: Unwritten(more + [a], i) ==> Unwritten(more, i) && !(a.WriteInput? && a.i == i)
  {
    forall i | Unwritten(more + [a], i)
      ensures Unwritten(more, i) && !(a.WriteInput? && a.i == i)
    {
      assert (more + [a])[|more|] == a;
      assert forall k :: 0 <= k < |more| ==> (more + [a])[k] == more[k];
    }
  }

  /** A test, of which the next state only differs in where io_task is. */
  lemma TestInRound(s: State, t: State, more: seq<Action>, d: seq<nat>, a: Action, pc: Pc)
    requires |s.inputs| == INPUTS && |t.inputs| == INPUTS && RoundOk(s, t, more, d) && a.TaskStep?
    requires t.pc.Test? && IsCommand(t.pc.i) && pc == if t.inputs[t.pc.i] == 0 then Act(t.pc.i) else AfterTest(t.pc.i)
    ensures RoundOk(s, t.(pc := pc), more + [a], d)
  {
    hide Commands, Unwritten;
    UnwrittenPart(more, a);
  }

  lemma ActInRound(s: State, t: State, u: State, more: seq<Action>, d: seq<nat>, a: Action)
    requires |s.inputs| == INPUTS && |t.inputs| == INPUTS && RoundOk(s, t, more, d) && a.TaskStep?
    requires t.pc.Act? && IsCommand(t.pc.i) && u.pc == AfterTest(t.pc.i) && u.inputs == t.inputs[t.pc.i := 1]
    requires Commands(u.log) == Commands(t.log) + [t.pc.i]
    ensures RoundOk(s, u, more + [a], d + [t.pc.i])
  {
    hide Commands, Unwritten;
    UnwrittenPart(more, a);
  }

  lemma TaskInRound(s: State, t: State, more: seq<Action>, d: seq<nat>, a: Action) returns (e: seq<nat>)
    requires |s.inputs| == INPUTS && |t.inputs| == INPUTS && RoundOk(s, t, more, d) && a.TaskStep? && Stage(t.pc) < 6
    ensures RoundOk(s, Next(t, a), more + [a], e)
  {
    hide Put, PutAll, Samples, Commands, RoundOk;
    if t.pc.Act? {
      e := d + [t.pc.i];
      PutOne(t, t.pc.i);
      ActInRound(s, t, Next(t, a), more, d, a);
    } else {
      e := d;
      TestInRound(s, t, more, d, a, Next(t, a).pc);
    }
  }

  lemma PutOne(t: State, i: nat)
    requires |t.inputs| == INPUTS && i < INPUTS
    ensures var u := Put(t, i, 1);
            u.inputs == t.inputs[i := 1] && Commands(u.log + [Executed(i)]) == Commands(t.log) + [i]
  {
    CommandsMore(t.log, Wrote(i, 1));
    CommandsMore(t.log + [Wrote(i, 1)], Executed(i));
  }

  lemma {:induction false} RoundRuns(s: State, more: seq<Action>) returns (d: seq<nat>)
    requires |s.inputs| == INPUTS && s.pc == Test(1)
    requires forall k :: 0 <= k < |more| ==> After(s, more[..k]).pc != Top
    ensures RoundOk(s, After(s, more), more, d)
    decreases |more|
  {
    hide Next, RoundOk, Stage;
    if more == [] {
      d := [];
      RoundBegins(s);
    } else {
      var before, a := more[..|more| - 1], more[|more| - 1];
      forall k | 0 <= k < |before|
        ensures After(s, before[..k]).pc != Top
      {
        assert before[..k] == more[..k];
      }
      d := RoundRuns(s, before);
      assert more[..|before|] == before && before + [a] == more;
      if a.TaskStep? {
        NotOver(s, After(s, before), before, d);
        d := TaskInRound(s, After(s, before), before, d, a);
      } else {
        OthersInRound(s, After(s, before), before, d, a);
      }
    }
  }

  lemma RoundBegins(s: State)
    requires |s.inputs| == INPUTS && s.pc == Test(1)
    ensures RoundOk(s, s, [], [])
  {
  }

  lemma NotOver(s: State, t: State, more: seq<Action>, d: seq<nat>)
    requires |s.inputs| == INPUTS && |t.inputs| == INPUTS && RoundOk(s, t, more, d) && t.pc != Top
    ensures Stage(t.pc) < 6
  {
  }

  /**
    In every run: once a kept message has been handled, io_task runs, in this order and before it is back at the top,
    commands 1, 3 and 6, each if and only if its input is zero, and has set those inputs to 1 by then; whatever is
    posted, registered, or written to other inputs meanwhile.
  */
  lemma ZerosAnswered(registered: bool, actions: seq<Action>, more: seq<Action>) returns (d: seq<nat>)
    requires var s := Run(registered, actions);
             && s.pc == Test(1)
             && (forall k :: 0 <= k < |more| ==> Run(registered, actions + more[..k]).pc != Top)
             && Run(registered, actions + more).pc == Top
    ensures var s, t := Run(registered, actions), Run(registered, actions + more);
            && Commands(t.log) == Commands(s.log) + d
            && (forall k :: 0 <= k < |d| ==> d[k] == 1 || d[k] == 3 || d[k] == 6)
            && (forall k, l :: 0 <= k < l < |d| ==> d[k] < d[l])
            && (forall i :: (i == 1 || i == 3 || i == 6) && Unwritten(more, i) ==>
                  && (i in d <==> s.inputs[i] == 0)
                  && t.inputs[i] == if s.inputs[i] == 0 then 1 else s.inputs[i])
  {
    hide Next, Run, Commands;
    var s := Run(registered, actions);
    forall k | 0 <= k < |more|
      ensures After(s, more[..k]).pc != Top
    {
      RunAfter(registered, actions, more[..k]);
    }
    RunAfter(registered, actions, more);
    d := RoundRuns(s, more);
  }

  /** If nobody writes the three inputs meanwhile, that decides the commands. */
  lemma ExactCommands(registered: bool, actions: seq<Action>, more: seq<Action>)
    requires var s := Run(registered, actions);
             && s.pc == Test(1)
             && (forall k :: 0 <= k < |more| ==> Run(registered, actions + more[..k]).pc != Top)
             && Run(registered, actions + more).pc == Top
    requires Unwritten(more, 1) && Unwritten(more, 3) && Unwritten(more, 6)
    ensures var s, t := Run(registered, actions), Run(registered, actions + more);
            Commands(t.log) == Commands(s.log) + (if s.inputs[1] == 0 then [1] else [])
                               + (if s.inputs[3] == 0 then [3] else []) + (if s.inputs[6] == 0 then [6] else [])
  {
    hide Run, Commands, Unwritten;
    var s := Run(registered, actions);
    var d := ZerosAnswered(registered, actions, more);
    Ascending(d, s.inputs[1] == 0, s.inputs[3] == 0, s.inputs[6] == 0);
  }

  lemma Ascending(d: seq<nat>, b1: bool, b3: bool, b6: bool)
    requires forall k :: 0 <= k < |d| ==> d[k] == 1 || d[k] == 3 || d[k] == 6
    requires forall k, l :: 0 <= k < l < |d| ==> d[k] < d[l]
    requires (1 in d <==> b1) && (3 in d <==> b3) && (6 in d <==> b6)
    ensures d == (if b1 then [1] else []) + (if b3 then [3] else []) + (if b6 then [6] else [])
  {
    if |d| > 0 {
      Rising(d, |d| - 1);
    }
    if |d| == 0 {
    } else if |d| == 1 {
      assert d == [d[0]];
    } else if |d| == 2 {
      assert d == [d[0], d[1]] && d[0] < d[1];
    } else {
      assert d == [d[0], d[1], d[2]] && d[0] < d[1] < d[2];
    }
  }

  lemma {:induction false} Rising(d: seq<nat>, k: nat)
    requires k < |d| && forall k :: 0 <= k < |d| ==> d[k] == 1 || d[k] == 3 || d[k] == 6
    requires forall k, l :: 0 <= k < l < |d| ==> d[k] < d[l]
    ensures k < 3 && d[k] >= if k == 0 then 1 else if k == 1 then 3 else 6
  {
    if k > 0 {
      Rising(d, k - 1);
      assert d[k - 1] < d[k];
    }
  }

  /** A round is over after at most six steps of io_task. */
  lemma {:induction false} RoundEnds(s: State, more: seq<Action>)
    requires |s.inputs| == INPUTS && s.pc == Test(1)
    requires forall k :: 0 <= k <= |more| ==> After(s, more[..k]).pc != Top
    ensures TaskSteps(more) <= Stage(After(s, more).pc) < 6
    decreases |more|
  {
    hide Next, Stage;
    if more == [] {
      StageOne(s);
    } else {
      var before, a := more[..|more| - 1], more[|more| - 1];
      forall k | 0 <= k <= |before|
        ensures After(s, before[..k]).pc != Top
      {
        assert before[..k] == more[..k];
      }
      RoundEnds(s, before);
      assert more[..|more|] == more;
      StageAdvances(After(s, before), a);
    }
  }

  lemma StageOne(s: State)
    requires s.pc == Test(1)
    ensures Stage(s.pc) == 0
  {
  }

  lemma StageAdvances(s: State, a: Action)
    requires |s.inputs| == INPUTS && Stage(s.pc) < 6
    ensures var t := Next(s, a);
            && Stage(s.pc) + (if a.TaskStep? then 1 else 0) <= Stage(t.pc)
            && (t.pc == Top || Stage(t.pc) < 6)
  {
    hide Put, PutAll, Samples;
  }

  // ---- no other commands ----

  function Executions(log: seq<Event>, i: nat): nat {
    if log == [] then 0 else Executions(log[..|log| - 1], i) + if log[|log| - 1] == Executed(i) then 1 else 0
  }

  lemma ExecutionsMore(log: seq<Event>, e: Event, i: nat)
    ensures Executions(log + [e], i) == Executions(log, i) + if e == Executed(i) then 1 else 0
  {
    assert (log + [e])[..|log + [e]| - 1] == log;
  }

  /** How many of the first n messages taken were kept and are commands, 0x55 or 0xaa. */
  function Ordered(taken: seq<nat>, fates: seq<Fate>, n: nat): nat
    requires n <= |fates| <= |taken|
  {
    if n == 0 then 0
    else Ordered(taken, fates, n - 1) + if fates[n - 1].Kept? && (taken[n - 1] == 0x55 || taken[n - 1] == 0xaa) then 1 else 0
  }

  lemma {:induction false} OrderedPrefix(taken: seq<nat>, more: seq<nat>, fates: seq<Fate>, later: seq<Fate>, n: nat)
    requires n <= |fates| <= |taken| && |fates + later| <= |taken + more|
    ensures Ordered(taken + more, fates + later, n) == Ordered(taken, fates, n)
    decreases n
  {
    if n > 0 {
      OrderedPrefix(taken, more, fates, later, n - 1);
    }
  }

  /** Whether command i may still run in the round at hand. */
  function Open(pc: Pc, i: nat): nat {
    if (pc.Handle? && (pc.msg == 0x55 || pc.msg == 0xaa)) || (Stage(pc) < 6 && Stage(pc) <= Due(i)) then 1 else 0
  }

  ghost predicate Covered(s: State, i: nat) {
    && MessagesOk(s) && |s.inputs| == INPUTS
    && (s.pc.Test? || s.pc.Act? ==> Stage(s.pc) < 6)
    && Executions(s.log, i) + Open(s.pc, i) <= Ordered(s.taken, s.fates, |s.fates|)
  }

  lemma OthersCovered(s: State, a: Action, i: nat)
    requires Covered(s, i) && !a.TaskStep?
    ensures Covered(Next(s, a), i)
  {
    hide MessagesOk;
    MessageStep(s, a);
    if a.WriteInput? {
      ExecutionsMore(s.log, Wrote(a.i, a.v), i);
    }
    CountsFit(s);
  }

  lemma CountsFit(s: State)
    requires MessagesOk(s)
    ensures |s.fates| <= |s.taken| && (s.pc.Filter? ==> |s.fates| + 1 == |s.taken| && s.taken[|s.fates|] == s.pc.msg)
    ensures !s.pc.Filter? ==> |s.fates| == |s.taken|
  {
  }

  lemma {:induction false} StoresNoCommand(s: State, writes: seq<(nat, nat)>, i: nat)
    requires |s.inputs| == INPUTS
    ensures Executions(PutAll(s, writes).log, i) == Executions(s.log, i)
    decreases |writes|
  {
    hide Executions;
    if writes != [] {
      ExecutionsMore(s.log, Wrote(writes[0].0, writes[0].1), i);
      StoresNoCommand(Put(s, writes[0].0, writes[0].1), writes[1..], i);
    }
  }

  lemma QueueCovered(s: State, a: Action, i: nat)
    requires Covered(s, i) && a.TaskStep? && (s.pc.Top? || s.pc.Pend? || s.pc.Filter?)
    ensures Covered(Next(s, a), i)
  {
    hide MessagesOk, Put, PutAll, Samples, Executions;
    MessageStep(s, a);
    CountsFit(s);
    var t := Next(s, a);
    if s.pc.Pend? && s.queue != [] {
      OrderedPrefix(s.taken, [s.queue[0]], s.fates, [], |s.fates|);
      assert s.fates + [] == s.fates;
    } else if s.pc.Filter? {
      var f := t.fates[|s.fates|];
      assert t.fates == s.fates + [f] && s.taken + [] == s.taken;
      OrderedPrefix(s.taken, [], s.fates, [f], |s.fates|);
    }
  }

  lemma RoundCovered(s: State, a: Action, i: nat)
    requires Covered(s, i) && a.TaskStep? && (s.pc.Handle? || s.pc.Test? || s.pc.Act?)
    ensures Covered(Next(s, a), i)
  {
    hide MessagesOk, Put, PutAll, Samples, Executions, Ordered;
    MessageStep(s, a);
    CountsFit(s);
    if s.pc.Handle? {
      StoresNoCommand(s, Samples(a.pins, a.running), i);
    } else if s.pc.Act? {
      PutCounted(s, s.pc.i, i);
    }
  }

  lemma PutCounted(s: State, j: nat, i: nat)
    requires |s.inputs| == INPUTS
    ensures Executions(Put(s, j, 1).log + [Executed(j)], i) == Executions(s.log, i) + if i == j then 1 else 0
  {
    ExecutionsMore(s.log, Wrote(j, 1), i);
    ExecutionsMore(Put(s, j, 1).log, Executed(j), i);
  }

  lemma {:induction false} AllCovered(registered: bool, actions: seq<Action>, i: nat)
    requires IsCommand(i)
    ensures Covered(Run(registered, actions), i)
  {
    hide Covered, Next;
    if actions == [] {
      StartsCovered(registered, i);
    } else {
      var before, a := actions[..|actions| - 1], actions[|actions| - 1];
      AllCovered(registered, before, i);
      if !a.TaskStep? {
        OthersCovered(Run(registered, before), a, i);
      } else if Run(registered, before).pc.Top? || Run(registered, before).pc.Pend? || Run(registered, before).pc.Filter? {
        QueueCovered(Run(registered, before), a, i);
      } else {
        RoundCovered(Run(registered, before), a, i);
      }
    }
  }

  lemma StartsCovered(registered: bool, i: nat)
    ensures Covered(Init(registered), i)
  {
  }

  /** In every run a command has run at most once for every message 0x55 or 0xaa that was kept: others run none. */
  lemma CommandsNeedMessages(registered: bool, actions: seq<Action>, i: nat)
    requires i == 1 || i == 3 || i == 6
    ensures var s := Run(registered, actions);
            |s.fates| <= |s.taken| && Executions(s.log, i) <= Ordered(s.taken, s.fates, |s.fates|)
  {
    AllCovered(registered, actions, i);
    CountsFit(Run(registered, actions));
  }

  // ---- the queue, and the registration ----

  /** A message is accepted if and only if fewer than 32 accepted ones have not been taken yet. */
  lemma PostAccepted(registered: bool, actions: seq<Action>, m: nat)
    ensures var s, t := Run(registered, actions), Run(registered, actions + [Post(m)]);
            t.accepted == if |s.accepted| - |s.taken| < 32 then s.accepted + [m] else s.accepted
  {
    MessagesConserved(registered, actions);
    assert (actions + [Post(m)])[..|actions|] == actions;
  }

  /** While it is not registered, io_task at the top takes no message and runs no command. */
  lemma {:induction false} NotRegistered(registered: bool, actions: seq<Action>, more: seq<Action>)
    requires Run(registered, actions).pc == Top && !Run(registered, actions).registered
    requires forall k :: 0 <= k < |more| ==> more[k] != Register(true)
    ensures var s, t := Run(registered, actions), Run(registered, actions + more);
            t.pc == Top && !t.registered && t.taken == s.taken && Commands(t.log) == Commands(s.log)
    decreases |more|
  {
    hide Commands, Next;
    var all := actions + more;
    if more == [] {
      assert all == actions;
    } else {
      var a := more[|more| - 1];
      NotRegistered(registered, actions, more[..|more| - 1]);
      assert all[..|all| - 1] == actions + more[..|more| - 1] && all[|all| - 1] == a;
      IdleStep(Run(registered, all[..|all| - 1]), a);
    }
  }

  lemma IdleStep(s: State, a: Action)
    requires |s.inputs| == INPUTS && s.pc == Top && !s.registered && a != Register(true)
    ensures var t := Next(s, a);
            t.pc == Top && !t.registered && t.taken == s.taken && Commands(t.log) == Commands(s.log)
  {
    hide Commands, Put;
    if a.WriteInput? {
      if a.i < INPUTS {
        PutEffect(s, a.i, a.v);
      } else {
        PutNothing(s, a.i, a.v);
      }
    }
  }

  lemma PutNothing(s: State, i: nat, v: nat)
    requires |s.inputs| == INPUTS && i >= INPUTS
    ensures Put(s, i, v) == s
  {
  }
}

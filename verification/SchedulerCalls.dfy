/**
  What send_rqb returns, over whole runs. Beside the state machine a log is kept of
  every call of every task: the request as it was posted, the answer it was given,
  and the block the caller got back.
 */
module SchedulerCalls {
  import opened Base
  import opened SchedulerModel
  import opened SchedulerRuns
  import opened SchedulerIpc

  datatype Call = Call(request: Rqb, answer: Option<Rqb>, result: Option<Rqb>)

  /** A message as it travels: its own service, status and data, from one task to another. */
  function Message(msg: Rqb, from: nat, to: nat): (m: Rqb) { Rqb(msg.service, msg.status, from, to, msg.data) }

  /** The last call with this answer, or with this result. */
  ghost function WithAnswer(calls: seq<Call>, m: Rqb): (r: seq<Call>) {
    if calls == [] then [] else calls[|calls| - 1 := calls[|calls| - 1].(answer := Some(m))]
  }

  ghost function WithResult(calls: seq<Call>, m: Option<Rqb>): (r: seq<Call>) {
    if calls == [] then [] else calls[|calls| - 1 := calls[|calls| - 1].(result := m)]
  }

  /** The calls of slot `i` after the task on `cpu` has exited: whoever waits for it is given status 9, Aborted. */
  ghost function AfterExit(w: World, cpu: nat, log: seq<seq<Call>>, i: nat): (calls: seq<Call>)
    requires Acting(w, cpu) && |log| == |w.s.tasks| && i < |log|
  {
    var dead, t := w.s.tasks[Me(w.s, cpu)].id, w.s.tasks[i];
    if t.state == WaitingReply && t.waitFor == dead then WithAnswer(log[i], Rqb(0, 9, dead, t.id, [])) else log[i]
  }

  /** What a step adds to the log. */
  ghost function Noted(w: World, log: seq<seq<Call>>, l: Label): (r: seq<seq<Call>>)
    requires Enabled(w, l) && |log| == |w.s.tasks|
  {
    match l
    case Register(_, _, _) => log + [[]]
    case Add(_, _, _) => var k := ReusableFrom(w.s.tasks, 0); if k < |log| then log[k := []] else log + [[]]
    case Post(cpu, receiver, msg) =>
      var me := Me(w.s, cpu);
      if PostStatus(w.s, cpu, receiver).Err? then log
      else log[me := log[me] + [Call(Message(msg, w.s.tasks[me].id, receiver), None, None)]]
    case Reply(cpu, sender, msg) =>
      var r := ReplyStatus(w.s, cpu, sender);
      if r.Err? then log
      else log[r.value := WithAnswer(log[r.value], Message(msg, w.s.tasks[Me(w.s, cpu)].id, sender))]
    case Exit(cpu) => seq(|log|, i requires 0 <= i < |log| => AfterExit(w, cpu, log, i))
    case Finish(cpu) => log[Me(w.s, cpu) := WithResult(log[Me(w.s, cpu)], TakeReply(w.s, cpu).1)]
    case _ => log
  }

  /** A run together with its log. */
  ghost predicate Logged(w: World, log: seq<seq<Call>>, ls: seq<Label>, w': World, log': seq<seq<Call>>)
    requires |log| == |w.s.tasks|
    decreases |ls|
  {
    if ls == [] then w == w' && log == log'
    else
      && Enabled(w, ls[0]) && |Noted(w, log, ls[0])| == |Next(w, ls[0]).s.tasks|
      && Logged(Next(w, ls[0]), Noted(w, log, ls[0]), ls[1..], w', log')
  }

  /** A call gets back the very block it was answered with, by the task it was sent to. */
  ghost predicate CallOk(c: Call) {
    && (c.result.Some? ==> c.result == c.answer)
    && (c.answer.Some? ==> c.answer.value.sender == c.request.receiver && c.answer.value.receiver == c.request.sender)
  }

  /** All calls but the last are finished, and the last one unless its task is inside send_rqb. */
  ghost predicate SlotLog(t: Task, a: Aux, calls: seq<Call>) {
    && (forall j :: 0 <= j < |calls| ==> CallOk(calls[j]))
    && (forall j :: 0 <= j < |calls| - 1 ==> calls[j].result.Some?)
    && (a.pc == Free ==> calls == [] || calls[|calls| - 1].result.Some?)
    && (a.pc != Free ==>
      calls != [] && calls[|calls| - 1] == Call(a.posted, t.reply, None)
      && a.posted.sender == t.id && a.posted.receiver == t.waitFor)
  }

  ghost predicate LogOk(w: World, log: seq<seq<Call>>) {
    && Sized(w) && |log| == |w.s.tasks|
    && forall i :: 0 <= i < |log| ==> SlotLog(w.s.tasks[i], w.aux[i], log[i])
  }

  /** Nothing the log speaks of changes in a slot. */
  ghost predicate SlotStill(w: World, w': World, i: nat)
    requires Sized(w) && Sized(w') && i < |w.s.tasks| && i < |w'.s.tasks|
  {
    var t, t', a, a' := w.s.tasks[i], w'.s.tasks[i], w.aux[i], w'.aux[i];
    t'.id == t.id && t'.reply == t.reply && t'.waitFor == t.waitFor && a'.posted == a.posted
    && (a'.pc == Free <==> a.pc == Free)
  }

  lemma TickStill(w: World, cpu: nat, at: nat, timer: bool, i: nat)
    requires WaitInv(w) && Enabled(w, Tick(cpu, at, timer)) && i < |w.s.tasks|
    ensures var w' := TickStep(w, cpu, at, timer); Sized(w') && |w'.s.tasks| == |w.s.tasks| && SlotStill(w, w', i)
  {
    if OnLine(w, cpu) {
      var sp, now, next := TickSwitches(w, cpu, at, timer);
      CoreStep(w, Tick(cpu, at, timer));
      SwitchedSlot(w, TickStep(w, cpu, at, timer), cpu, sp, now, next, i);
    }
  }

  lemma PostNoted(w: World, log: seq<seq<Call>>, cpu: nat, receiver: nat, msg: Rqb, i: nat)
    requires WaitInv(w) && LogOk(w, log) && Acting(w, cpu) && i < |log|
    ensures var w', log' := PostStep(w, cpu, receiver, msg), Noted(w, log, Post(cpu, receiver, msg));
      Sized(w') && |log'| == |log| == |w'.s.tasks| && SlotLog(w'.s.tasks[i], w'.aux[i], log'[i])
  {
    assert SlotLog(w.s.tasks[i], w.aux[i], log[i]) && WaitOk(w, i);
  }

  lemma ReplyNoted(w: World, log: seq<seq<Call>>, cpu: nat, sender: nat, msg: Rqb, i: nat)
    requires WaitInv(w) && LogOk(w, log) && Acting(w, cpu) && i < |log|
    ensures var w', log' := ReplyStep(w, cpu, sender, msg), Noted(w, log, Reply(cpu, sender, msg));
      Sized(w') && |log'| == |log| == |w'.s.tasks| && SlotLog(w'.s.tasks[i], w'.aux[i], log'[i])
  {
    assert SlotLog(w.s.tasks[i], w.aux[i], log[i]) && WaitOk(w, i);
  }

  lemma ExitNoted(w: World, log: seq<seq<Call>>, cpu: nat, i: nat)
    requires WaitInv(w) && LogOk(w, log) && Acting(w, cpu) && i < |log|
    ensures var w', log' := ExitStep(w, cpu), Noted(w, log, Exit(cpu));
      Sized(w') && |log'| == |log| == |w'.s.tasks| && SlotLog(w'.s.tasks[i], w'.aux[i], log'[i])
  {
    assert SlotLog(w.s.tasks[i], w.aux[i], log[i]) && WaitOk(w, i) && WaitOk(w, Me(w.s, cpu));
  }

  lemma FinishNoted(w: World, log: seq<seq<Call>>, cpu: nat, i: nat)
    requires WaitInv(w) && LogOk(w, log) && Enabled(w, Finish(cpu)) && i < |log|
    ensures var w', log' := FinishStep(w, cpu), Noted(w, log, Finish(cpu));
      Sized(w') && |log'| == |log| == |w'.s.tasks| && SlotLog(w'.s.tasks[i], w'.aux[i], log'[i])
  {
    NeverReblocks(w, cpu);
    assert SlotLog(w.s.tasks[i], w.aux[i], log[i]);
  }

  lemma OtherNoted(w: World, log: seq<seq<Call>>, l: Label, i: nat)
    requires WaitInv(w) && LogOk(w, log) && Enabled(w, l)
      && !(l.Tick? || l.Post? || l.Reply? || l.Exit? || l.Finish?)
    ensures var w', log' := Next(w, l), Noted(w, log, l);
      && Sized(w') && |log'| == |w'.s.tasks| >= |log|
      && (i < |log'| ==> SlotLog(w'.s.tasks[i], w'.aux[i], log'[i]))
  {
    if i < |log| { assert SlotLog(w.s.tasks[i], w.aux[i], log[i]); }
  }

  lemma NotedSlot(w: World, log: seq<seq<Call>>, l: Label, i: nat)
    requires WaitInv(w) && LogOk(w, log) && Enabled(w, l)
    ensures var w', log' := Next(w, l), Noted(w, log, l);
      && Sized(w') && |log'| == |w'.s.tasks| >= |log|
      && (i < |log'| ==> SlotLog(w'.s.tasks[i], w'.aux[i], log'[i]))
  {
    match l
    case Tick(cpu, at, timer) =>
      if i < |log| {
        assert SlotLog(w.s.tasks[i], w.aux[i], log[i]);
        TickStill(w, cpu, at, timer, i);
      } else if 0 < |log| {
        TickStill(w, cpu, at, timer, 0);
      }
    case Post(cpu, receiver, msg) => PostNoted(w, log, cpu, receiver, msg, if i < |log| then i else 0);
    case Reply(cpu, sender, msg) => ReplyNoted(w, log, cpu, sender, msg, if i < |log| then i else 0);
    case Exit(cpu) => ExitNoted(w, log, cpu, if i < |log| then i else 0);
    case Finish(cpu) => FinishNoted(w, log, cpu, if i < |log| then i else 0);
    case _ => OtherNoted(w, log, l, i);
  }

  /** Every step keeps the log in order. */
  lemma LogStep(w: World, log: seq<seq<Call>>, l: Label)
    requires WaitInv(w) && LogOk(w, log) && Enabled(w, l)
    ensures LogOk(Next(w, l), Noted(w, log, l))
  {
    NotedSlot(w, log, l, 0);
    var w', log' := Next(w, l), Noted(w, log, l);
    forall i: nat | i < |log'| ensures SlotLog(w'.s.tasks[i], w'.aux[i], log'[i]) { NotedSlot(w, log, l, i); }
  }

  lemma {:induction false} LogRun(w: World, log: seq<seq<Call>>, ls: seq<Label>, w': World, log': seq<seq<Call>>)
    requires WaitInv(w) && LogOk(w, log) && Logged(w, log, ls, w', log')
    ensures WaitInv(w') && LogOk(w', log')
    decreases |ls|
  {
    if ls != [] {
      WaitStep(w, ls[0]);
      LogStep(w, log, ls[0]);
      LogRun(Next(w, ls[0]), Noted(w, log, ls[0]), ls[1..], w', log');
    }
  }

  /**
    In every run, whatever send_rqb has returned is the very block, in service, status
    and data, that the task it was sent to replied with while the call lasted, or that
    task's Aborted notice; every earlier call of a task has returned.
   */
  lemma SendReturns(ls: seq<Label>, w: World, log: seq<seq<Call>>, i: nat, j: nat)
    requires Logged(Init(), [], ls, w, log) && i < |log| && j < |log[i]|
    ensures CallOk(log[i][j]) && (j < |log[i]| - 1 ==> log[i][j].result.Some?)
  {
    CoreInit();
    LogRun(Init(), [], ls, w, log);
    assert SlotLog(w.s.tasks[i], w.aux[i], log[i]);
  }

  /** Every run has a log. */
  lemma {:induction false} RunHasLog(w: World, log: seq<seq<Call>>, ls: seq<Label>, w': World)
      returns (log': seq<seq<Call>>)
    requires WaitInv(w) && LogOk(w, log) && Run(w, ls, w')
    ensures Logged(w, log, ls, w', log')
    decreases |ls|
  {
    log' := log;
    if ls != [] {
      WaitStep(w, ls[0]);
      LogStep(w, log, ls[0]);
      log' := RunHasLog(Next(w, ls[0]), Noted(w, log, ls[0]), ls[1..], w');
    }
  }

  /** An answer once given is not replaced by any later step. */
  lemma AnswerStays(w: World, log: seq<seq<Call>>, l: Label, i: nat, j: nat)
    requires WaitInv(w) && LogOk(w, log) && Enabled(w, l) && i < |log| && j < |log[i]| && log[i][j].answer.Some?
      && Live(w.s.tasks[i])
    ensures i < |Noted(w, log, l)| && j < |Noted(w, log, l)[i]| && Noted(w, log, l)[i][j].answer == log[i][j].answer
  {
    assert SlotLog(w.s.tasks[i], w.aux[i], log[i]) && WaitOk(w, i);
  }
}

/**
  Request/reply IPC over the scheduler's state machine: nobody hangs, nothing is
  lost, requests arrive in order, and every reply answers the request its sender
  is blocked on.
 */
module SchedulerIpc {
  import opened Base
  import opened SchedulerModel
  import opened SchedulerRuns

  // ---------------------------------------------------------------- no lost wake-ups

  /** What slot `i` may look like at each point of send_rqb and receive_rqb. */
  ghost predicate WaitOk(w: World, i: nat)
    requires Sized(w) && i < |w.s.tasks|
  {
    var t, a := w.s.tasks[i], w.aux[i];
    && |t.inbox| <= INBOX_CAPACITY
    && (t.state == WaitingRqb || t.state == Exited ==> t.inbox == [])
    && (a.pc == Free ==> t.reply.None? && t.state != WaitingReply)
    && (a.pc != Free ==>
      (t.state == WaitingReply && t.reply.None?) || ((t.state == Ready || t.state == Running) && t.reply.Some?))
    && (a.pc == Posted ==> t.onCpu.Some? && t.state != Running)
    && (a.pc == Yielded && t.onCpu.Some? ==> t.state == Running)
    && (t.state == WaitingReply ==> WaitsOn(w, i, a.target))
    && a.got <= a.sent && (Live(t) ==> a.sent == a.got + t.inbox)
  }

  /** Slot `r` holds the live task that slot `i` waits for. */
  ghost predicate WaitsOn(w: World, i: nat, r: nat)
    requires Sized(w) && i < |w.s.tasks|
  {
    r < |w.s.tasks| && r != i && Live(w.s.tasks[r]) && w.s.tasks[r].id == w.s.tasks[i].waitFor
  }

  ghost predicate WaitInv(w: World) {
    CoreInv(w) && forall i :: 0 <= i < |w.s.tasks| ==> WaitOk(w, i)
  }

  lemma WaitAdmin(w: World, l: Label)
    requires WaitInv(w) && Enabled(w, l)
    requires l.Issue? || l.Register? || l.Add? || l.Collect? || l.Restack? || l.Unlock?
    ensures WaitInv(Next(w, l))
  {
    CoreStep(w, l);
    var w' := Next(w, l);
    forall i | 0 <= i < |w'.s.tasks| ensures WaitOk(w', i) {
      if i < |w.s.tasks| { assert WaitOk(w, i); }
    }
  }

  /** What a switch may do to a task: `mine` for the outgoing one. */
  ghost predicate SwitchedTask(t: Task, t': Task, mine: bool) {
    && t'.id == t.id && t'.inbox == t.inbox && t'.reply == t.reply && t'.waitFor == t.waitFor
    && if t.onCpu.Some? && !mine then
         t'.onCpu == t.onCpu && (t'.state == t.state || (t.state == Sleeping && t'.state == Ready))
       else
         && (t'.onCpu.Some? <==> t'.state == Running)
         && (t'.state == t.state || (t.state in {Ready, Running, Sleeping} && t'.state in {Ready, Running}))
  }

  lemma SwitchedSlot(w: World, w': World, cpu: nat, sp: Context, now: nat, next: nat, i: nat)
    requires CoreInv(w) && Switched(w, w', cpu, sp, now, next) && Sized(w') && i < |w.s.tasks|
    ensures SwitchedTask(w.s.tasks[i], w'.s.tasks[i], i == Me(w.s, cpu))
  {
    assert TaskOk(w, i);
  }

  lemma WaitSwitched(w: World, w': World, cpu: nat, sp: Context, i: nat)
    requires Sized(w) && Sized(w') && |w'.s.tasks| == |w.s.tasks| && i < |w.s.tasks| && HasCurrent(w.s, cpu)
    requires WaitOk(w, i)
    requires forall j :: 0 <= j < |w.s.tasks| ==> SwitchedTask(w.s.tasks[j], w'.s.tasks[j], j == Me(w.s, cpu))
    requires var me := Me(w.s, cpu);
      w'.aux == w.aux[me := w.aux[me].(saved := sp, pc := if w.aux[me].pc == Posted then Yielded else w.aux[me].pc)]
    ensures WaitOk(w', i)
  {
    var t, t' := w.s.tasks[i], w'.s.tasks[i];
    assert SwitchedTask(t, t', i == Me(w.s, cpu));
    if t.state == WaitingReply {
      var r := w.aux[i].target;
      assert WaitsOn(w, i, r) && SwitchedTask(w.s.tasks[r], w'.s.tasks[r], r == Me(w.s, cpu));
    }
  }

  lemma WaitTick(w: World, cpu: nat, at: nat, timer: bool)
    requires WaitInv(w) && Enabled(w, Tick(cpu, at, timer))
    ensures WaitInv(Next(w, Tick(cpu, at, timer)))
  {
    CoreStep(w, Tick(cpu, at, timer));
    var w' := TickStep(w, cpu, at, timer);
    if OnLine(w, cpu) {
      var sp, now, next := TickSwitches(w, cpu, at, timer);
      forall j | 0 <= j < |w.s.tasks| ensures SwitchedTask(w.s.tasks[j], w'.s.tasks[j], j == Me(w.s, cpu)) {
        SwitchedSlot(w, w', cpu, sp, now, next, j);
      }
      forall i | 0 <= i < |w'.s.tasks| ensures WaitOk(w', i) { WaitSwitched(w, w', cpu, sp, i); }
    } else {
      forall i | 0 <= i < |w'.s.tasks| ensures WaitOk(w', i) { assert WaitOk(w, i); }
    }
  }

  lemma WaitPost(w: World, cpu: nat, receiver: nat, msg: Rqb, i: nat)
    requires WaitInv(w) && Acting(w, cpu) && i < |w.s.tasks|
    ensures WaitOk(PostStep(w, cpu, receiver, msg), i)
  {
    assert WaitOk(w, i);
    match PostStatus(w.s, cpu, receiver)
    case Err(_) =>
    case Ok(ri) =>
      if i == Me(w.s, cpu) {
        WaitPoster(w, cpu, receiver, msg);
      } else if i == ri {
        WaitReceiver(w, cpu, receiver, msg);
      } else {
        WaitOther(w, cpu, receiver, msg, i);
      }
  }

  lemma WaitPoster(w: World, cpu: nat, receiver: nat, msg: Rqb)
    requires WaitInv(w) && Acting(w, cpu) && PostStatus(w.s, cpu, receiver).Ok?
    ensures WaitOk(PostStep(w, cpu, receiver, msg), Me(w.s, cpu))
  {
    ActorUnpinned(w, cpu);
    assert WaitOk(w, Me(w.s, cpu)) && WaitOk(w, PostStatus(w.s, cpu, receiver).value);
  }

  lemma WaitReceiver(w: World, cpu: nat, receiver: nat, msg: Rqb)
    requires WaitInv(w) && Acting(w, cpu) && PostStatus(w.s, cpu, receiver).Ok?
    ensures WaitOk(PostStep(w, cpu, receiver, msg), PostStatus(w.s, cpu, receiver).value)
  {
    assert WaitOk(w, Me(w.s, cpu)) && WaitOk(w, PostStatus(w.s, cpu, receiver).value);
  }

  lemma WaitOther(w: World, cpu: nat, receiver: nat, msg: Rqb, i: nat)
    requires WaitInv(w) && Acting(w, cpu) && PostStatus(w.s, cpu, receiver).Ok? && i < |w.s.tasks|
    requires i != Me(w.s, cpu) && i != PostStatus(w.s, cpu, receiver).value
    ensures WaitOk(PostStep(w, cpu, receiver, msg), i)
  {
    assert WaitOk(w, i) && WaitOk(w, Me(w.s, cpu)) && WaitOk(w, PostStatus(w.s, cpu, receiver).value);
  }

  lemma WaitTake(w: World, l: Label, i: nat)
    requires WaitInv(w) && l.Take? && Enabled(w, l) && i < |w.s.tasks|
    ensures Sized(Next(w, l)) && |Next(w, l).s.tasks| == |w.s.tasks| && WaitOk(Next(w, l), i)
  {
    ActorUnpinned(w, l.cpu);
    assert WaitOk(w, Me(w.s, l.cpu)) && WaitOk(w, i);
  }

  lemma WaitSleep(w: World, l: Label, i: nat)
    requires WaitInv(w) && l.Sleep? && Enabled(w, l) && i < |w.s.tasks|
    ensures Sized(Next(w, l)) && |Next(w, l).s.tasks| == |w.s.tasks| && WaitOk(Next(w, l), i)
  {
    ActorUnpinned(w, l.cpu);
    assert WaitOk(w, Me(w.s, l.cpu)) && WaitOk(w, i);
  }

  lemma WaitFinish(w: World, l: Label, i: nat)
    requires WaitInv(w) && l.Finish? && Enabled(w, l) && i < |w.s.tasks|
    ensures Sized(Next(w, l)) && |Next(w, l).s.tasks| == |w.s.tasks| && WaitOk(Next(w, l), i)
  {
    ActorUnpinned(w, l.cpu);
    assert WaitOk(w, Me(w.s, l.cpu)) && WaitOk(w, i);
  }

  lemma WaitReply(w: World, cpu: nat, sender: nat, msg: Rqb, i: nat)
    requires WaitInv(w) && Acting(w, cpu) && i < |w.s.tasks|
    ensures WaitOk(ReplyStep(w, cpu, sender, msg), i)
  {
    assert WaitOk(w, i);
    match ReplyStatus(w.s, cpu, sender)
    case Err(_) =>
    case Ok(si) => assert WaitOk(w, si);
  }

  lemma WaitExit(w: World, cpu: nat, i: nat)
    requires WaitInv(w) && Acting(w, cpu) && i < |w.s.tasks|
    ensures WaitOk(ExitStep(w, cpu), i)
  {
    assert WaitOk(w, i) && WaitOk(w, Me(w.s, cpu));
  }

  lemma WaitByTask(w: World, l: Label)
    requires WaitInv(w) && ByTask(l) && Enabled(w, l)
    ensures WaitInv(Next(w, l))
  {
    CoreStep(w, l);
    var w' := Next(w, l);
    forall i | 0 <= i < |w'.s.tasks| ensures WaitOk(w', i) {
      if l.Post? {
        WaitPost(w, l.cpu, l.receiver, l.msg, i);
      } else if l.Reply? {
        WaitReply(w, l.cpu, l.sender, l.msg, i);
      } else if l.Exit? {
        WaitExit(w, l.cpu, i);
      } else if l.Take? {
        WaitTake(w, l, i);
      } else if l.Sleep? {
        WaitSleep(w, l, i);
      } else {
        WaitFinish(w, l, i);
      }
    }
  }

  lemma WaitStep(w: World, l: Label)
    requires WaitInv(w) && Enabled(w, l)
    ensures WaitInv(Next(w, l))
  {
    if l.Tick? {
      WaitTick(w, l.cpu, l.at, l.timer);
    } else if ByTask(l) {
      WaitByTask(w, l);
    } else {
      WaitAdmin(w, l);
    }
  }

  lemma {:induction false} WaitRun(w: World, ls: seq<Label>, w': World)
    requires WaitInv(w) && Run(w, ls, w')
    ensures WaitInv(w')
    decreases |ls|
  {
    if ls != [] {
      WaitStep(w, ls[0]);
      WaitRun(Next(w, ls[0]), ls[1..], w');
    }
  }

  /**
    In every reachable state: a task blocked on a reply has an empty reply slot
    and waits for a live task; a task blocked on a request has an empty inbox; no
    inbox exceeds its capacity; and what a task has received is a prefix of what
    was posted to it, the rest being its inbox, so requests arrive in order.
   */
  lemma NothingLost(ls: seq<Label>, w: World, i: nat)
    requires Run(Init(), ls, w) && i < |w.s.tasks|
    ensures Sized(w)
    ensures var t, a := w.s.tasks[i], w.aux[i];
      && |t.inbox| <= INBOX_CAPACITY
      && (t.state == WaitingRqb ==> t.inbox == [])
      && (t.state == WaitingReply ==>
        t.reply.None? && exists r :: 0 <= r < |w.s.tasks| && w.s.tasks[r].id == t.waitFor && Live(w.s.tasks[r]))
      && a.got <= a.sent && (Live(t) ==> t.inbox == a.sent[|a.got|..])
  {
    CoreInit();
    WaitRun(Init(), ls, w);
    assert WaitOk(w, i);
  }

  /** When a sender comes back from its yield there is a reply, so send_rqb never blocks a second time. */
  lemma NeverReblocks(w: World, cpu: nat)
    requires WaitInv(w) && Enabled(w, Finish(cpu))
    ensures TakeReply(w.s, cpu).1.Some? && FinishStep(w, cpu).aux[Me(w.s, cpu)].pc == Free
  {
    assert CpuOk(w, cpu) && WaitOk(w, Me(w.s, cpu));
  }

  // ---------------------------------------------------------------- pairing of requests and replies

  /** Requests task slot `r` has received and not answered, then those still in its inbox. */
  ghost function Pending(w: World, r: nat): (ms: seq<Rqb>)
    requires Sized(w) && r < |w.s.tasks|
  { w.aux[r].held + w.s.tasks[r].inbox }

  /** Slot `t` is blocked in send_rqb on slot `r`, having posted exactly `m`. */
  ghost predicate Asks(w: World, t: nat, r: nat, m: Rqb) {
    && Sized(w) && t < |w.s.tasks| && w.s.tasks[t].state == WaitingReply && w.aux[t].target == r
    && w.aux[t].posted == m && m.sender == w.s.tasks[t].id
  }

  ghost predicate Asked(w: World, r: nat, m: Rqb) { exists t :: Asks(w, t, r, m) }

  ghost predicate ServerOk(w: World, r: nat)
    requires Sized(w) && r < |w.s.tasks|
  {
    if Live(w.s.tasks[r]) then
      && (forall k :: 0 <= k < |Pending(w, r)| ==> Asked(w, r, Pending(w, r)[k]))
      && Spread(Pending(w, r))
    else w.aux[r].held == []
  }

  ghost predicate ClientOk(w: World, t: nat)
    requires Sized(w) && t < |w.s.tasks|
  {
    w.s.tasks[t].state == WaitingReply && w.aux[t].target < |w.s.tasks| ==>
      w.aux[t].posted in Pending(w, w.aux[t].target) && Asks(w, t, w.aux[t].target, w.aux[t].posted)
  }

  ghost predicate PairInv(w: World) {
    WaitInv(w) && forall i :: 0 <= i < |w.s.tasks| ==> ServerOk(w, i) && ClientOk(w, i)
  }

  /** A receiver replies only to a request it has received and not yet answered. */
  ghost predicate Disciplined(w: World, l: Label) {
    l.Reply? ==> HasCurrent(w.s, l.cpu) && |w.aux| == |w.s.tasks| && Holds(w.aux[Me(w.s, l.cpu)].held, l.sender)
  }

  ghost predicate Holds(ms: seq<Rqb>, sender: nat) { exists k :: 0 <= k < |ms| && ms[k].sender == sender }

  /** Slot `i` pairs as before: same identity, same pending requests, blocked on the same request or not at all. */
  ghost predicate PairSame(w: World, w': World, i: nat)
    requires Sized(w) && Sized(w') && i < |w.s.tasks| && i < |w'.s.tasks|
  {
    var t, t' := w.s.tasks[i], w'.s.tasks[i];
    && t'.id == t.id && (Live(t') <==> Live(t)) && Pending(w', i) == Pending(w, i)
    && (Live(t) || w'.aux[i].held == [])
    && (t'.state == WaitingReply <==> t.state == WaitingReply)
    && w'.aux[i].target == w.aux[i].target && w'.aux[i].posted == w.aux[i].posted
  }

  /** Slot `i` holds a task nobody has dealt with yet. */
  ghost predicate Unasked(w: World, i: nat)
    requires Sized(w) && i < |w.s.tasks|
  {
    Live(w.s.tasks[i]) && Pending(w, i) == [] && w.s.tasks[i].state != WaitingReply
  }

  ghost predicate PairFrame(w: World, w': World) {
    && Sized(w) && Sized(w') && |w.s.tasks| <= |w'.s.tasks|
    && (forall i :: 0 <= i < |w.s.tasks| ==> PairSame(w, w', i) || (!Live(w.s.tasks[i]) && Unasked(w', i)))
    && (forall i :: |w.s.tasks| <= i < |w'.s.tasks| ==> Unasked(w', i))
  }

  lemma PairFramed(w: World, w': World)
    requires PairInv(w) && WaitInv(w') && PairFrame(w, w')
    ensures PairInv(w')
  {
    forall i | 0 <= i < |w'.s.tasks| ensures ServerOk(w', i) && ClientOk(w', i) {
      if i < |w.s.tasks| {
        assert ServerOk(w, i) && ClientOk(w, i) && WaitOk(w, i);
        if PairSame(w, w', i) {
          forall k | 0 <= k < |Pending(w', i)| && Live(w'.s.tasks[i]) ensures Asked(w', i, Pending(w', i)[k]) {
            var m := Pending(w, i)[k];
            assert Asked(w, i, m);
            var t :| Asks(w, t, i, m);
            assert PairSame(w, w', t);
            assert Asks(w', t, i, m);
          }
          if w.s.tasks[i].state == WaitingReply {
            var r := w.aux[i].target;
            assert WaitsOn(w, i, r) && PairSame(w, w', r);
          }
        } else {
          assert Unasked(w', i);
        }
      } else {
        assert Unasked(w', i);
      }
    }
  }

  lemma PairQuiet(w: World, l: Label)
    requires PairInv(w) && Enabled(w, l) && !l.Post? && !l.Reply? && !l.Exit? && !l.Tick?
    ensures PairInv(Next(w, l))
  {
    WaitStep(w, l);
    var w' := Next(w, l);
    QuietNew(w, l, w');
    forall i | 0 <= i < |w.s.tasks|
      ensures PairSame(w, w', i) || (!Live(w.s.tasks[i]) && Unasked(w', i))
    {
      QuietSlot(w, l, w', i);
    }
    PairFramed(w, w');
  }

  lemma QuietSlot(w: World, l: Label, w': World, i: nat)
    requires PairInv(w) && Enabled(w, l) && !l.Post? && !l.Reply? && !l.Exit? && !l.Tick? && w' == Next(w, l)
      && i < |w.s.tasks| <= |w'.s.tasks| && Sized(w')
    ensures PairSame(w, w', i) || (!Live(w.s.tasks[i]) && Unasked(w', i))
  {
    assert WaitOk(w, i) && ServerOk(w, i);
    if l.Finish? { NeverReblocks(w, l.cpu); }
    if ByTask(l) { QuietByTask(w, l, w', i); }
  }

  lemma QuietByTask(w: World, l: Label, w': World, i: nat)
    requires PairInv(w) && Enabled(w, l) && (l.Take? || l.Sleep? || l.Finish?) && w' == Next(w, l)
      && i < |w.s.tasks| <= |w'.s.tasks| && Sized(w')
    ensures PairSame(w, w', i)
  {
    assert WaitOk(w, i) && ServerOk(w, i);
    if l.Finish? { NeverReblocks(w, l.cpu); }
  }

  lemma QuietNew(w: World, l: Label, w': World)
    requires PairInv(w) && Enabled(w, l) && !l.Post? && !l.Reply? && !l.Exit? && !l.Tick? && w' == Next(w, l)
      && WaitInv(w')
    ensures |w.s.tasks| <= |w'.s.tasks| && forall i :: |w.s.tasks| <= i < |w'.s.tasks| ==> Unasked(w', i)
  {
    if l.Finish? { NeverReblocks(w, l.cpu); }
  }

  lemma PairTick(w: World, cpu: nat, at: nat, timer: bool)
    requires PairInv(w) && Enabled(w, Tick(cpu, at, timer))
    ensures PairInv(TickStep(w, cpu, at, timer))
  {
    WaitTick(w, cpu, at, timer);
    var w' := TickStep(w, cpu, at, timer);
    forall i | 0 <= i < |w.s.tasks| ensures |w'.s.tasks| == |w.s.tasks| && PairSame(w, w', i) {
      assert ServerOk(w, i);
      if OnLine(w, cpu) {
        var sp, now, next := TickSwitches(w, cpu, at, timer);
        SwitchedSlot(w, w', cpu, sp, now, next, i);
      }
    }
    if OnLine(w, cpu) { var sp, now, next := TickSwitches(w, cpu, at, timer); }
    PairFramed(w, w');
  }

  /** Everyone who was asked still is, and the poster is none of the askers. */
  lemma PostKeepsAskers(w: World, cpu: nat, receiver: nat, msg: Rqb, i: nat, m: Rqb)
    requires PairInv(w) && Acting(w, cpu) && PostStatus(w.s, cpu, receiver).Ok? && Asked(w, i, m)
    ensures Asked(PostStep(w, cpu, receiver, msg), i, m) && m.sender != w.s.tasks[Me(w.s, cpu)].id
  {
    var t := Asker(w, i, m);
    assert WaitOk(w, Me(w.s, cpu)) && WaitOk(w, t);
    assert Asks(PostStep(w, cpu, receiver, msg), t, i, m);
  }

  lemma PairPost(w: World, cpu: nat, receiver: nat, msg: Rqb)
    requires PairInv(w) && Acting(w, cpu) && PostStatus(w.s, cpu, receiver).Ok?
    ensures PairInv(PostStep(w, cpu, receiver, msg))
  {
    WaitStep(w, Post(cpu, receiver, msg));
    var w' := PostStep(w, cpu, receiver, msg);
    forall i | 0 <= i < |w.s.tasks|
      ensures ServerOk(w', i) && ClientOk(w', i)
    {
      PostSlot(w, cpu, receiver, msg, w', i);
    }
  }

  lemma PostSlot(w: World, cpu: nat, receiver: nat, msg: Rqb, w': World, i: nat)
    requires PairInv(w) && Acting(w, cpu) && PostStatus(w.s, cpu, receiver).Ok?
      && w' == PostStep(w, cpu, receiver, msg) && WaitInv(w') && i < |w.s.tasks| == |w'.s.tasks|
    ensures ServerOk(w', i) && ClientOk(w', i)
  {
    var me, ri := Me(w.s, cpu), PostStatus(w.s, cpu, receiver).value;
    var m := Stamped(msg, w.s.tasks[me].id, receiver);
    assert Pending(w', ri) == Pending(w, ri) + [m];
    assert Asks(w', me, ri, m);
    assert Asked(w', ri, m);
    assert ServerOk(w, i) && ClientOk(w, i) && WaitOk(w, i);
    if i != ri { assert Pending(w', i) == Pending(w, i); }
    forall k | 0 <= k < |Pending(w, i)| && Live(w.s.tasks[i])
      ensures Asked(w', i, Pending(w, i)[k]) && Pending(w, i)[k].sender != m.sender
    {
      PostKeepsAskers(w, cpu, receiver, msg, i, Pending(w, i)[k]);
    }
  }

  lemma Asker(w: World, r: nat, m: Rqb) returns (t: nat)
    requires Asked(w, r, m)
    ensures Asks(w, t, r, m)
  {
    t :| Asks(w, t, r, m);
  }

  lemma {:induction false} WithoutIn(ms: seq<Rqb>, sender: nat)
    ensures forall m :: m in Without(ms, sender) <==> m in ms && m.sender != sender
    ensures Spread(ms) ==> Spread(Without(ms, sender))
  {
    if ms != [] { WithoutIn(ms[1..], sender); }
  }

  /** No two requests of `ms` have the same sender. */
  ghost predicate Spread(ms: seq<Rqb>) {
    forall j, k :: 0 <= j < k < |ms| ==> ms[j].sender != ms[k].sender
  }

  lemma PairExit(w: World, cpu: nat)
    requires PairInv(w) && Acting(w, cpu)
    ensures PairInv(ExitStep(w, cpu))
  {
    WaitStep(w, Exit(cpu));
    var w', me := ExitStep(w, cpu), Me(w.s, cpu);
    forall i | 0 <= i < |w.s.tasks| ensures ServerOk(w', i) && ClientOk(w', i) {
      assert ServerOk(w, i) && ClientOk(w, i) && WaitOk(w, i);
      if i != me {
        assert Pending(w', i) == Pending(w, i);
        forall k | 0 <= k < |Pending(w, i)| && Live(w.s.tasks[i]) ensures Asked(w', i, Pending(w, i)[k]) {
          var t := Asker(w, i, Pending(w, i)[k]);
          assert WaitOk(w, t);
          assert Asks(w', t, i, Pending(w, i)[k]);
        }
      }
    }
  }

  /** The task a held request came from is blocked on this receiver, so the reply is accepted. */
  lemma HeldIsAnswerable(w: World, cpu: nat, sender: nat)
    requires PairInv(w) && Acting(w, cpu) && Holds(w.aux[Me(w.s, cpu)].held, sender)
    ensures ReplyStatus(w.s, cpu, sender).Ok?
  {
    var me := Me(w.s, cpu);
    var k :| 0 <= k < |w.aux[me].held| && w.aux[me].held[k].sender == sender;
    assert ServerOk(w, me) && Pending(w, me)[k] == w.aux[me].held[k];
    var t := Asker(w, me, Pending(w, me)[k]);
    assert WaitOk(w, t);
    var si := FindLive(w.s.tasks, sender);
    assert si == t;
  }

  lemma PairReply(w: World, cpu: nat, sender: nat, msg: Rqb)
    requires PairInv(w) && Acting(w, cpu) && Holds(w.aux[Me(w.s, cpu)].held, sender)
    ensures PairInv(ReplyStep(w, cpu, sender, msg))
  {
    WaitStep(w, Reply(cpu, sender, msg));
    HeldIsAnswerable(w, cpu, sender);
    var w' := ReplyStep(w, cpu, sender, msg);
    forall i | 0 <= i < |w.s.tasks|
      ensures ServerOk(w', i) && ClientOk(w', i)
    {
      ReplySlot(w, cpu, sender, msg, w', i);
    }
  }

  lemma ReplySlot(w: World, cpu: nat, sender: nat, msg: Rqb, w': World, i: nat)
    requires PairInv(w) && Acting(w, cpu) && Holds(w.aux[Me(w.s, cpu)].held, sender)
      && ReplyStatus(w.s, cpu, sender).Ok?
    requires w' == ReplyStep(w, cpu, sender, msg) && WaitInv(w') && i < |w.s.tasks| == |w'.s.tasks|
    ensures ServerOk(w', i) && ClientOk(w', i)
  {
    ReplyClient(w, cpu, sender, msg, w', i);
    ReplyPending(w, cpu, sender, msg, w', i);
    if Live(w'.s.tasks[i]) {
      forall k | 0 <= k < |Pending(w', i)| ensures Asked(w', i, Pending(w', i)[k]) {
        ReplyAsked(w, cpu, sender, msg, w', i, Pending(w', i)[k]);
      }
    } else {
      assert ServerOk(w, i);
    }
  }

  lemma ReplyClient(w: World, cpu: nat, sender: nat, msg: Rqb, w': World, i: nat)
    requires PairInv(w) && Acting(w, cpu) && Holds(w.aux[Me(w.s, cpu)].held, sender)
      && ReplyStatus(w.s, cpu, sender).Ok?
    requires w' == ReplyStep(w, cpu, sender, msg) && WaitInv(w') && i < |w.s.tasks| == |w'.s.tasks|
    ensures ClientOk(w', i)
  {
    var me, si := Me(w.s, cpu), ReplyStatus(w.s, cpu, sender).value;
    assert ServerOk(w, me) && WaitOk(w, si) && ClientOk(w, i) && WaitOk(w, i);
    WithoutSpread(w.aux[me].held, w.s.tasks[me].inbox, sender);
  }

  /** What slot `i` has pending after the answer: no two from the same sender, and nothing new. */
  lemma ReplyPending(w: World, cpu: nat, sender: nat, msg: Rqb, w': World, i: nat)
    requires PairInv(w) && Acting(w, cpu) && Holds(w.aux[Me(w.s, cpu)].held, sender)
      && ReplyStatus(w.s, cpu, sender).Ok?
    requires w' == ReplyStep(w, cpu, sender, msg) && WaitInv(w') && i < |w.s.tasks| == |w'.s.tasks|
    ensures Live(w.s.tasks[i]) ==> Spread(Pending(w', i))
    ensures forall m :: m in Pending(w', i) ==> m in Pending(w, i) && (i == Me(w.s, cpu) ==> m.sender != sender)
  {
    var me := Me(w.s, cpu);
    assert ServerOk(w, me) && ServerOk(w, i);
    WithoutSpread(w.aux[me].held, w.s.tasks[me].inbox, sender);
    assert i != me ==> Pending(w', i) == Pending(w, i);
  }

  /** A request that stays pending is one its sender still waits on. */
  lemma ReplyAsked(w: World, cpu: nat, sender: nat, msg: Rqb, w': World, i: nat, m: Rqb)
    requires PairInv(w) && Acting(w, cpu) && Holds(w.aux[Me(w.s, cpu)].held, sender)
      && ReplyStatus(w.s, cpu, sender).Ok?
    requires w' == ReplyStep(w, cpu, sender, msg) && WaitInv(w') && i < |w.s.tasks| == |w'.s.tasks|
    requires Live(w.s.tasks[i]) && m in Pending(w, i) && (i == Me(w.s, cpu) ==> m.sender != sender)
    ensures Asked(w', i, m)
  {
    var si := ReplyStatus(w.s, cpu, sender).value;
    assert ServerOk(w, i) && WaitOk(w, si) && ClientOk(w, si);
    var t := Asker(w, i, m);
    assert Asks(w', t, i, m);
  }

  /** Removing a held request by its sender removes nothing else, if all senders differ. */
  lemma WithoutSpread(held: seq<Rqb>, inbox: seq<Rqb>, sender: nat)
    requires Spread(held + inbox) && Holds(held, sender)
    ensures var ms := Without(held, sender) + inbox;
      Spread(ms) && forall m :: m in ms <==> m in held + inbox && m.sender != sender
  {
    var all := held + inbox;
    var k :| 0 <= k < |held| && held[k].sender == sender;
    assert all[k] == held[k];
    forall j | 0 <= j < |inbox| ensures inbox[j].sender != sender { assert all[|held| + j] == inbox[j]; }
    assert Spread(held) by { assert forall j :: 0 <= j < |held| ==> all[j] == held[j]; }
    WithoutIn(held, sender);
    SpreadJoin(held, inbox, Without(held, sender));
  }

  lemma SpreadJoin(held: seq<Rqb>, inbox: seq<Rqb>, kept: seq<Rqb>)
    requires Spread(held + inbox) && Spread(kept) && forall m :: m in kept ==> m in held
    ensures Spread(kept + inbox)
  {
    var all, ms := held + inbox, kept + inbox;
    forall a, b | 0 <= a < b < |ms| ensures ms[a].sender != ms[b].sender {
      if a < |kept| <= b {
        assert kept[a] in held;
        var c :| 0 <= c < |held| && held[c] == kept[a];
        assert all[c] == kept[a] && all[|held| + (b - |kept|)] == ms[b];
      } else if |kept| <= a {
        assert all[|held| + (a - |kept|)] == ms[a] && all[|held| + (b - |kept|)] == ms[b];
      }
    }
  }

  lemma PairStep(w: World, l: Label)
    requires PairInv(w) && Enabled(w, l) && Disciplined(w, l)
    ensures PairInv(Next(w, l))
  {
    if l.Tick? {
      PairTick(w, l.cpu, l.at, l.timer);
    } else if l.Post? && PostStatus(w.s, l.cpu, l.receiver).Ok? {
      PairPost(w, l.cpu, l.receiver, l.msg);
    } else if l.Exit? {
      PairExit(w, l.cpu);
    } else if l.Reply? {
      PairReply(w, l.cpu, l.sender, l.msg);
    } else if !l.Post? {
      PairQuiet(w, l);
    }
  }

  /** A run in which every reply is disciplined. */
  ghost predicate FairRun(w: World, ls: seq<Label>, w': World)
    decreases |ls|
  {
    if ls == [] then w == w'
    else Enabled(w, ls[0]) && Disciplined(w, ls[0]) && FairRun(Next(w, ls[0]), ls[1..], w')
  }

  lemma {:induction false} PairRun(w: World, ls: seq<Label>, w': World)
    requires PairInv(w) && FairRun(w, ls, w')
    ensures PairInv(w')
    decreases |ls|
  {
    if ls != [] {
      PairStep(w, ls[0]);
      PairRun(Next(w, ls[0]), ls[1..], w');
    }
  }

  /** Slot `t` is blocked waiting for a reply from slot `r`. */
  ghost predicate WaitsFor(w: World, t: nat, r: nat)
    requires t < |w.s.tasks| && r < |w.s.tasks|
  { w.s.tasks[t].state == WaitingReply && w.s.tasks[t].waitFor == w.s.tasks[r].id }

  /** Slot `t` waits for slot `r` and `m` is the request it posted. */
  ghost predicate BlockedWith(w: World, t: nat, r: nat, m: Rqb)
    requires Sized(w) && r < |w.s.tasks|
  {
    t < |w.s.tasks| && WaitsFor(w, t, r) && w.aux[t].posted == m && m.sender == w.s.tasks[t].id
  }

  /**
    In every state of a disciplined run, the requests a live task holds or has in
    its inbox correspond one to one with the tasks blocked on it: no two have the
    same sender, each is the very request its blocked sender posted, and every
    blocked task has one.
   */
  lemma OneToOne(ls: seq<Label>, w: World, r: nat)
    requires FairRun(Init(), ls, w) && r < |w.s.tasks| && Live(w.s.tasks[r])
    ensures Sized(w) && Spread(Pending(w, r))
    ensures forall m :: m in Pending(w, r) ==> exists t :: BlockedWith(w, t, r, m)
    ensures forall t :: 0 <= t < |w.s.tasks| && WaitsFor(w, t, r) ==>
      w.aux[t].posted in Pending(w, r) && BlockedWith(w, t, r, w.aux[t].posted)
  {
    CoreInit();
    PairRun(Init(), ls, w);
    assert ServerOk(w, r);
    forall m | m in Pending(w, r) ensures exists t :: BlockedWith(w, t, r, m) {
      var t := Asker(w, r, m);
      assert WaitOk(w, t);
      assert BlockedWith(w, t, r, m);
    }
    forall t | 0 <= t < |w.s.tasks| && WaitsFor(w, t, r)
      ensures w.aux[t].posted in Pending(w, r) && BlockedWith(w, t, r, w.aux[t].posted)
    {
      assert WaitOk(w, t) && ClientOk(w, t);
      assert w.aux[t].target == r;
    }
  }

  /**
    Answering the held request `m` succeeds and wakes exactly the task that posted
    it, with the stamped answer in its reply slot; no other task is touched.
   */
  lemma ReplyAnswersItsRequest(w: World, cpu: nat, m: Rqb, msg: Rqb)
    requires PairInv(w) && Acting(w, cpu) && m in w.aux[Me(w.s, cpu)].held
    ensures ReplyStatus(w.s, cpu, m.sender).Ok?
    ensures var w', me, si := ReplyStep(w, cpu, m.sender, msg), Me(w.s, cpu), ReplyStatus(w.s, cpu, m.sender).value;
      && w.aux[si].posted == m && w.s.tasks[si].state == WaitingReply
      && w'.s.tasks[si] == w.s.tasks[si].(state := Ready, reply := Some(Stamped(msg, w.s.tasks[me].id, m.sender)))
      && forall i :: 0 <= i < |w.s.tasks| && i != si ==> w'.s.tasks[i] == w.s.tasks[i]
  {
    var me := Me(w.s, cpu);
    HeldIsAnswerable(w, cpu, m.sender);
    var si := ReplyStatus(w.s, cpu, m.sender).value;
    assert ServerOk(w, me);
    var k :| 0 <= k < |w.aux[me].held| && w.aux[me].held[k] == m;
    assert Pending(w, me)[k] == m;
    var t := Asker(w, me, m);
    assert t == si;
  }

  /**
    The discipline is needed: an accepted reply keeps the pairing if and only if
    the receiver had taken the request it answers. A reply sent while the request
    is still in the inbox leaves behind a request nobody is waiting on.
   */
  lemma PairingNeedsDiscipline(w: World, cpu: nat, sender: nat, msg: Rqb)
    requires PairInv(w) && Acting(w, cpu) && ReplyStatus(w.s, cpu, sender).Ok?
    ensures PairInv(ReplyStep(w, cpu, sender, msg)) <==> Holds(w.aux[Me(w.s, cpu)].held, sender)
  {
    var w', me, si := ReplyStep(w, cpu, sender, msg), Me(w.s, cpu), ReplyStatus(w.s, cpu, sender).value;
    if Holds(w.aux[me].held, sender) {
      PairReply(w, cpu, sender, msg);
    } else if PairInv(w') {
      assert WaitOk(w, si) && ClientOk(w, si) && w.aux[si].target == me;
      var m := w.aux[si].posted;
      assert m in w.s.tasks[me].inbox;
      assert m in Pending(w', me) && ServerOk(w', me);
      var t := Asker(w', me, m);
      assert false;
    }
  }
}

/**
  A run in which the pairing of requests and blocked senders is lost: the receiver
  answers a sender before it has taken the request (src/scheduler/mod.rs,
  post_reply accepts whatever names a task that waits on the caller).
 */
module SchedulerEarlyReply {
  import opened Base
  import opened SchedulerModel
  import opened SchedulerRuns
  import opened SchedulerIpc

  lemma {:induction false} FairThen(w: World, ls: seq<Label>, w1: World, l: Label)
    requires FairRun(w, ls, w1) && Enabled(w1, l) && Disciplined(w1, l)
    ensures FairRun(w, ls + [l], Next(w1, l))
    decreases |ls|
  {
    if ls == [] {
      assert FairRun(Next(w, l), [], Next(w, l));
      assert ([l])[1..] == [] && ls + [l] == [l];
    } else {
      FairThen(Next(w, ls[0]), ls[1..], w1, l);
      assert (ls + [l])[1..] == ls[1..] + [l];
    }
  }

  /** Once CPU 0 is registered and tasks 2 and 3 are added. */
  ghost predicate Booted(w: World) {
    && w.lock == Unlocked && Sized(w) && w.s.cursor == 0 && w.stand[0] == 1
    && w.s.tasks == [IdleTask(1, 0), NewTask(2, 10, 0), NewTask(3, 10, 0)]
    && w.aux == [NewAux(Context(0, 0)), NewAux(Context(2, 0)), NewAux(Context(3, 0))]
    && w.s.cpus[0] == Cpu(true, 0, Some(0), 0)
    && forall c :: 1 <= c < MAX_CPUS ==> w.s.cpus[c] == Cpu(false, 0, None, 0)
  }

  lemma Boot() returns (ls: seq<Label>, w: World)
    ensures FairRun(Init(), ls, w) && Booted(w)
  {
    w, ls := Init(), [];
    FairThen(Init(), ls, w, Issue); ls, w := ls + [Issue], Next(w, Issue);
    var register := Register(0, 0, 1);
    FairThen(Init(), ls, w, register); ls, w := ls + [register], Next(w, register);
    FairThen(Init(), ls, w, Issue); ls, w := ls + [Issue], Next(w, Issue);
    FairThen(Init(), ls, w, Issue); ls, w := ls + [Issue], Next(w, Issue);
    var first, second := Add(2, 10, 0), Add(3, 10, 0);
    FairThen(Init(), ls, w, first); ls, w := ls + [first], Next(w, first);
    FairThen(Init(), ls, w, second); ls, w := ls + [second], Next(w, second);
  }

  /** CPU 0 runs the task in slot `me`, which was scanned for first. */
  ghost predicate Turned(w: World, w': World, me: nat)
    requires |w.s.tasks| == 3 && |w.s.cpus| == MAX_CPUS && |w.aux| == 3
  {
    && w'.lock == Unlocked && Sized(w') && |w'.s.tasks| == 3 && w'.s.cursor == me < 3
    && w'.s.cpus == w.s.cpus[0 := w.s.cpus[0].(current := Some(me))]
    && (forall i :: 0 <= i < 3 && i != me ==> SameTalk(w.s.tasks[i], w'.s.tasks[i]))
    && w'.s.tasks[me] == w.s.tasks[me].(state := Running, onCpu := Some(0))
    && forall i :: 0 <= i < 3 && i != me - 1 ==> w'.aux[i] == w.aux[i]
  }

  /** The slot's identity and what it waits for, if anything, are the same; it is off the CPU. */
  ghost predicate SameTalk(t: Task, t': Task) {
    && t' == t.(state := t'.state, onCpu := t'.onCpu, context := t'.context) && t'.onCpu.None?
    && t'.state == (if t.state == Running then Ready else t.state)
  }

  /** CPU 0 runs slot `me - 1` and slot `me` is next. */
  ghost predicate Due(w: World, me: nat) {
    && w.lock == Unlocked && Sized(w) && Shape(w.s) && OnLine(w, 0)
    && |w.s.tasks| == 3 && w.s.cursor < 2 && me == w.s.cursor + 1 && Me(w.s, 0) == me - 1
    && Eligible(w.s.tasks[me], 0) && w.s.tasks[me - 1].state != Sleeping
    && forall i :: 0 <= i < 3 && i != me - 1 ==> Still(w.s.tasks[i])
  }

  ghost predicate Still(t: Task) { t.onCpu.None? && t.state != Sleeping && t.state != Running }

  lemma Ticked(w: World, me: nat)
    requires Due(w, me)
    ensures var w1 := TickStep(w, 0, 0, false);
      Turned(w, w1.(lock := Unlocked), me) && w1.lock.Held? && w1.lock.cpu == 0 && !w1.lock.moved
  {
    var sp := Context(w.stand[0], 0);
    var out := SwitchOut(w.s, 0, sp, false);
    assert forall i :: 0 <= i < 3 ==> out.tasks[i] == Parked(w.s, 0, sp, w.s.jiffies, i);
    assert At(out.tasks, w.s.cursor, 1) == me && out.tasks[me] == w.s.tasks[me];
    assert PickNext(out, 0) == (me, out.(cursor := me));
    var s' := OnTick(w.s, 0, sp, false).0;
    forall i | 0 <= i < 3 && i != me ensures SameTalk(w.s.tasks[i], s'.tasks[i]) {
      assert s'.tasks[i] == out.tasks[i];
      if i != me - 1 { assert Still(w.s.tasks[i]); }
    }
  }

  lemma Turn(ls: seq<Label>, w: World, me: nat) returns (ls': seq<Label>, w': World)
    requires FairRun(Init(), ls, w) && Due(w, me)
    ensures FairRun(Init(), ls', w') && Turned(w, w', me)
  {
    var tick := Tick(0, 0, false);
    Ticked(w, me);
    FairThen(Init(), ls, w, tick);
    var w1 := Next(w, tick);
    FairThen(Init(), ls + [tick], w1, Restack(0));
    var w2 := Next(w1, Restack(0));
    FairThen(Init(), ls + [tick] + [Restack(0)], w2, Unlock(0));
    ls', w' := ls + [tick] + [Restack(0)] + [Unlock(0)], Next(w2, Unlock(0));
  }

  /** With ids 1, 2 and 3 in order, a live slot is found by its id. */
  lemma FindsSlot(ts: seq<Task>, k: nat)
    requires |ts| == 3 && k < 3 && Live(ts[k]) && forall i :: 0 <= i < 3 ==> ts[i].id == i + 1
    ensures FindLive(ts, k + 1) == k
  {
    assert ts[k].id == k + 1;
  }

  /** Slot 1 runs outside send_rqb and slot 2 is parked, with an empty inbox. */
  ghost predicate Talking(w: World) {
    && w.lock == Unlocked && Sized(w) && OnLine(w, 0) && Shape(w.s) && |w.s.tasks| == 3
    && w.s.cursor == 1 && Me(w.s, 0) == 1 && w.s.cpus[0].idle == 0
    && (forall i :: 0 <= i < 3 ==> w.s.tasks[i].id == i + 1) && Live(w.s.tasks[1]) && w.s.tasks[1].reply.None?
    && Still(w.s.tasks[0]) && Still(w.s.tasks[2]) && Eligible(w.s.tasks[2], 0) && w.s.tasks[2].inbox == []
    && w.aux[1].pc == Free && w.aux[2].pc == Free && w.aux[2].held == []
  }

  lemma FirstRuns(w: World, w': World)
    requires Booted(w) && Turned(w, w', 1)
    ensures Talking(w')
  {
    assert SameTalk(w.s.tasks[0], w'.s.tasks[0]) && SameTalk(w.s.tasks[2], w'.s.tasks[2]);
    assert w'.aux[2] == w.aux[2] && w'.aux[1] == w.aux[1];
  }

  lemma FirstPosts(w: World)
    requires Talking(w)
    ensures var w' := PostStep(w, 0, 3, NO_RQB);
      && Due(w', 2) && w'.aux[2].pc == Free && w'.aux[2].held == [] && w'.s.cpus == w.s.cpus
      && (forall i :: 0 <= i < 3 ==> w'.s.tasks[i].id == i + 1) && AwaitsReply(w'.s.tasks[1], 3)
  {
    FindsSlot(w.s.tasks, 2);
    assert PostStatus(w.s, 0, 3) == Ok(2);
    var w' := PostStep(w, 0, 3, NO_RQB);
    assert w'.s.tasks[0] == w.s.tasks[0];
  }

  /** The first task has posted its request to the second, whose turn is next. */
  lemma Asking() returns (ls: seq<Label>, w: World)
    ensures FairRun(Init(), ls, w) && Due(w, 2) && w.aux[2].pc == Free && w.aux[2].held == []
    ensures (forall i :: 0 <= i < 3 ==> w.s.tasks[i].id == i + 1) && AwaitsReply(w.s.tasks[1], 3)
    ensures w.s.cpus[0].idle == 0
  {
    var boot, w0 := Boot();
    var run1, w1 := Turn(boot, w0, 1);
    FirstRuns(w0, w1);
    var post := Post(0, 3, NO_RQB);
    FairThen(Init(), run1, w1, post);
    ls, w := run1 + [post], Next(w1, post);
    FirstPosts(w1);
  }

  /**
    A disciplined run ends in a state where the task with id 3 may answer the task
    with id 2, whose request is still in its inbox. The answer is accepted and the
    pairing is gone.
   */
  lemma EarlyReply() returns (ls: seq<Label>, w: World)
    ensures FairRun(Init(), ls, w) && Acting(w, 0) && Enabled(w, Reply(0, 2, NO_RQB))
    ensures ReplyStatus(w.s, 0, 2).Ok? && !Holds(w.aux[Me(w.s, 0)].held, 2)
    ensures !PairInv(Next(w, Reply(0, 2, NO_RQB)))
  {
    var ls1, w1 := Asking();
    ls, w := Turn(ls1, w1, 2);
    assert SameTalk(w1.s.tasks[0], w.s.tasks[0]) && SameTalk(w1.s.tasks[1], w.s.tasks[1]);
    FindsSlot(w.s.tasks, 1);
    CoreInit();
    PairRun(Init(), ls, w);
    PairingNeedsDiscipline(w, 0, 2, NO_RQB);
  }
}

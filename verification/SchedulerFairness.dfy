/** Round-robin fairness of pick_next, over runs of the scheduler's state machine. */
module SchedulerFairness {
  import opened SchedulerModel
  import opened SchedulerRuns

  /** How many slots the scan visits, starting after `cursor`, until it reaches slot `i`. */
  function Distance(cursor: nat, i: nat, n: nat): (d: nat)
    requires i < n && cursor < n
    ensures 1 <= d <= n
  { if i > cursor then i - cursor else i + n - cursor }

  lemma Wraps(cursor: nat, k: nat, n: nat)
    requires cursor < n && k <= n
    ensures (cursor + k) % n == if cursor + k < n then cursor + k else cursor + k - n
  {}

  /** Slot `i` is at offset Distance from the cursor, and walking to an earlier offset brings it closer. */
  lemma DistanceFacts(ts: seq<Task>, cursor: nat, i: nat, k: nat)
    requires i < |ts| && cursor < |ts|
    ensures At(ts, cursor, Distance(cursor, i, |ts|)) == i
    ensures 1 <= k < Distance(cursor, i, |ts|) ==>
      Distance(At(ts, cursor, k), i, |ts|) == Distance(cursor, i, |ts|) - k
  {
    Wraps(cursor, Distance(cursor, i, |ts|), |ts|);
    if k < |ts| { Wraps(cursor, k, |ts|); }
  }

  /** Slot `i` holds a task any CPU may run: Ready, parked, unpinned, above idle priority. */
  ghost predicate Runnable(w: World, i: nat) {
    && i < |w.s.tasks| && w.s.tasks[i].state == Ready && w.s.tasks[i].onCpu.None?
    && w.s.tasks[i].pinned.None? && w.s.tasks[i].priority != PRIORITY_IDLE
  }

  /** pick_next takes slot `i` or brings the cursor closer to it. */
  lemma PickCloser(s: Sched, cpu: nat, i: nat)
    requires i < |s.tasks| && cpu < |s.cpus| && Eligible(s.tasks[i], cpu) && s.cursor < |s.tasks|
    ensures var (j, s') := PickNext(s, cpu);
      s'.cursor < |s.tasks| && (j == i || Distance(s'.cursor, i, |s.tasks|) < Distance(s.cursor, i, |s.tasks|))
  {
    var d := Distance(s.cursor, i, |s.tasks|);
    var k := ScanFirst(s.tasks, s.cursor, cpu, 1);
    DistanceFacts(s.tasks, s.cursor, i, k);
    assert Eligible(s.tasks[At(s.tasks, s.cursor, d)], cpu);
    assert k <= d;
  }

  ghost predicate IsSwitch(w: World, l: Label) { l.Tick? && OnLine(w, l.cpu) }

  /** A step that does not run slot `i` leaves it runnable; only a switch moves the cursor, and then towards it. */
  lemma BypassStep(w: World, l: Label, i: nat)
    requires CoreInv(w) && Enabled(w, l) && Runnable(w, i) && w.s.cursor < |w.s.tasks|
    ensures |w.s.tasks| <= |Next(w, l).s.tasks| && Next(w, l).s.cursor < |w.s.tasks|
    ensures (IsSwitch(w, l) && HasCurrent(Next(w, l).s, l.cpu) && Me(Next(w, l).s, l.cpu) == i)
      || Runnable(Next(w, l), i)
    ensures Runnable(Next(w, l), i) && IsSwitch(w, l) ==>
      Distance(Next(w, l).s.cursor, i, |w.s.tasks|) < Distance(w.s.cursor, i, |w.s.tasks|)
    ensures !IsSwitch(w, l) ==> Next(w, l).s.cursor == w.s.cursor
  {
    if IsSwitch(w, l) {
      BypassSwitch(w, l, i);
    } else if ByTask(l) {
      ActorKept(w, l);
      UntouchedReady(w, l, i);
    }
  }

  lemma BypassSwitch(w: World, l: Label, i: nat)
    requires CoreInv(w) && Enabled(w, l) && Runnable(w, i) && w.s.cursor < |w.s.tasks| && IsSwitch(w, l)
    ensures |w.s.tasks| <= |Next(w, l).s.tasks| && Next(w, l).s.cursor < |w.s.tasks|
    ensures (HasCurrent(Next(w, l).s, l.cpu) && Me(Next(w, l).s, l.cpu) == i) || Runnable(Next(w, l), i)
    ensures Runnable(Next(w, l), i) ==>
      Distance(Next(w, l).s.cursor, i, |w.s.tasks|) < Distance(w.s.cursor, i, |w.s.tasks|)
  {
    var sp, now, next := TickSwitches(w, l.cpu, l.at, l.timer);
    assert CpuOk(w, l.cpu);
    var out := SwitchOut(w.s, l.cpu, Context(w.stand[l.cpu], l.at), l.timer);
    assert out.tasks[i] == w.s.tasks[i];
    PickCloser(out, l.cpu, i);
  }

  /** No step of another task runs or blocks a Ready, parked task. */
  lemma UntouchedReady(w: World, l: Label, i: nat)
    requires CoreInv(w) && ByTask(l) && Enabled(w, l) && i < |w.s.tasks|
    requires w.s.tasks[i].state == Ready && w.s.tasks[i].onCpu.None? && w.s.tasks[i].pinned.None?
    ensures |Next(w, l).s.tasks| == |w.s.tasks|
    ensures var t, t' := w.s.tasks[i], Next(w, l).s.tasks[i];
      t'.id == t.id && t'.state == Ready && t'.onCpu.None? && t'.pinned.None? && t'.priority == t.priority
  {
    ActorUnpinned(w, l.cpu);
    ActorKept(w, l);
    assert KeptSlot(w, Next(w, l), i);
    assert Me(w.s, l.cpu) != i;
  }

  /** Switches on online CPUs in `ls`, performed from `w`. */
  ghost function Switches(w: World, ls: seq<Label>): (n: nat)
    decreases |ls|
  {
    if ls == [] || !Enabled(w, ls[0]) then 0
    else (if IsSwitch(w, ls[0]) then 1 else 0) + Switches(Next(w, ls[0]), ls[1..])
  }

  /** Some switch of `ls`, performed from `w`, runs slot `i`. */
  ghost predicate Ran(w: World, ls: seq<Label>, i: nat)
    decreases |ls|
  {
    ls != [] && Enabled(w, ls[0]) &&
    var w' := Next(w, ls[0]);
    (IsSwitch(w, ls[0]) && HasCurrent(w'.s, ls[0].cpu) && Me(w'.s, ls[0].cpu) == i) || Ran(w', ls[1..], i)
  }

  ghost predicate CursorOk(s: Sched) { s.tasks == [] || s.cursor < |s.tasks| }

  lemma TableStep(w: World, l: Label)
    requires CoreInv(w) && Enabled(w, l)
    ensures |w.s.tasks| <= |Next(w, l).s.tasks|
    ensures CursorOk(w.s) && (w.s.tasks == [] ==> w.s.cursor == 0) ==>
      CursorOk(Next(w, l).s) && (Next(w, l).s.tasks == [] ==> Next(w, l).s.cursor == 0)
  {
    if IsSwitch(w, l) {
      var sp, now, next := TickSwitches(w, l.cpu, l.at, l.timer);
    } else if ByTask(l) {
      ActorKept(w, l);
    }
  }

  /** The table never shrinks, and the cursor of every reachable non-empty table is a slot of it. */
  lemma {:induction false} TableGrows(w: World, ls: seq<Label>, w': World)
    requires CoreInv(w) && Run(w, ls, w')
    ensures |w.s.tasks| <= |w'.s.tasks|
    ensures CursorOk(w.s) && (w.s.tasks == [] ==> w.s.cursor == 0) ==> CursorOk(w'.s)
    decreases |ls|
  {
    if ls != [] {
      CoreStep(w, ls[0]);
      TableStep(w, ls[0]);
      TableGrows(Next(w, ls[0]), ls[1..], w');
    }
  }

  /**
    Bounded bypass: in any run that appends no slot, a runnable task is run by the
    time as many switches have happened, on any mix of CPUs, as its distance from
    the cursor, which is at most the number of slots.
   */
  lemma {:induction false} BoundedBypass(w: World, ls: seq<Label>, w': World, i: nat)
    requires CoreInv(w) && Run(w, ls, w') && Runnable(w, i) && |w'.s.tasks| == |w.s.tasks| && w.s.cursor < |w.s.tasks|
    requires Switches(w, ls) >= Distance(w.s.cursor, i, |w.s.tasks|)
    ensures Ran(w, ls, i)
    decreases |ls|
  {
    if ls != [] {
      CoreStep(w, ls[0]);
      BypassStep(w, ls[0], i);
      var w1 := Next(w, ls[0]);
      TableGrows(w1, ls[1..], w');
      if Runnable(w1, i) { BoundedBypass(w1, ls[1..], w', i); }
    }
  }

  /** Slot `i` holds a parked task of the lowest priority that is no CPU's idle task. */
  ghost predicate Lowest(w: World, i: nat, id: nat) {
    && i < |w.s.tasks| && w.s.tasks[i].id == id && w.s.tasks[i].state == Ready && w.s.tasks[i].onCpu.None?
    && w.s.tasks[i].pinned.None? && w.s.tasks[i].priority == PRIORITY_IDLE
  }

  lemma LowestNotChosen(w: World, w': World, cpu: nat, sp: Context, now: nat, next: nat, i: nat, id: nat)
    requires CoreInv(w) && Switched(w, w', cpu, sp, now, next) && Lowest(w, i, id)
    ensures Lowest(w', i, id)
  {
    assert CpuOk(w, cpu);
    assert next != i;
  }

  lemma LowestStep(w: World, l: Label, i: nat, id: nat)
    requires CoreInv(w) && Enabled(w, l) && Lowest(w, i, id)
    ensures Lowest(Next(w, l), i, id)
  {
    if IsSwitch(w, l) {
      var sp, now, next := TickSwitches(w, l.cpu, l.at, l.timer);
      LowestNotChosen(w, Next(w, l), l.cpu, sp, now, next, i, id);
    } else if ByTask(l) {
      UntouchedReady(w, l, i);
    }
  }

  /** PRIORITY_LOWEST equals PRIORITY_IDLE: an ordinary task created at that priority never runs, in any run. */
  lemma {:induction false} LowestPriorityStarves(w: World, ls: seq<Label>, w': World, i: nat, id: nat)
    requires CoreInv(w) && Run(w, ls, w') && Lowest(w, i, id)
    ensures Lowest(w', i, id) && !Ran(w, ls, i)
    decreases |ls|
  {
    if ls != [] {
      CoreStep(w, ls[0]);
      LowestStep(w, ls[0], i, id);
      if IsSwitch(w, ls[0]) { assert CpuOk(Next(w, ls[0]), ls[0].cpu); }
      LowestPriorityStarves(Next(w, ls[0]), ls[1..], w', i, id);
    }
  }

  /** Adding a task at priority 31 reaches that state: from then on it never runs. */
  lemma AddedLowestStarves(w: World, id: nat, at: nat, ls: seq<Label>, w': World) returns (i: nat)
    requires CoreInv(w) && Enabled(w, Add(id, PRIORITY_IDLE, at)) && Run(Next(w, Add(id, PRIORITY_IDLE, at)), ls, w')
    ensures Lowest(Next(w, Add(id, PRIORITY_IDLE, at)), i, id) && Lowest(w', i, id)
    ensures !Ran(Next(w, Add(id, PRIORITY_IDLE, at)), ls, i)
  {
    i := ReusableFrom(w.s.tasks, 0);
    var w1 := Next(w, Add(id, PRIORITY_IDLE, at));
    assert w1.s.tasks[i] == NewTask(id, PRIORITY_IDLE, at);
    CoreStep(w, Add(id, PRIORITY_IDLE, at));
    LowestPriorityStarves(w1, ls, w', i, id);
  }
}

/**
  The task table of the SMP scheduler and the operations performed on it while
  the scheduler lock is held (src/scheduler/mod.rs, src/scheduler/task.rs).

  `Sched` is the value of the table and each operation is a function on it; the
  class `Scheduler` performs the same operations in place, with the loops of the
  kernel, and is proved against those functions.
 */
module SchedulerModel {
  import opened Base

  const MAX_CPUS: nat := 64
  const INBOX_CAPACITY: nat := 32
  const PRIORITY_IDLE: nat := 31
  const STATUS_ABORTED: nat := 9

  datatype TaskState = Ready | Running | WaitingRqb | Sleeping | Exited | Blocked | WaitingReply

  datatype Status = InvalidParam | NotFound | Busy

  datatype Rqb = Rqb(service: nat, status: nat, sender: nat, receiver: nat, data: seq<byte>)

  /** A saved stack pointer: the task on whose stack it points, and where. */
  datatype Context = Context(owner: nat, at: nat)

  datatype Task = Task(
    id: nat, state: TaskState, priority: nat, context: Context,
    pinned: Option<nat>, onCpu: Option<nat>,
    inbox: seq<Rqb>, reply: Option<Rqb>, waitFor: nat, wakeTick: nat, reaped: bool)

  datatype Cpu = Cpu(registered: bool, hwId: nat, current: Option<nat>, idle: nat)

  datatype Sched = Sched(tasks: seq<Task>, cpus: seq<Cpu>, cursor: nat, jiffies: nat)

  /** Every slot index stored in the per-CPU state is inside the task table. */
  ghost predicate Shape(s: Sched) {
    && |s.cpus| == MAX_CPUS
    && forall c :: 0 <= c < |s.cpus| ==> CpuShape(s, s.cpus[c])
  }

  ghost predicate CpuShape(s: Sched, c: Cpu) {
    && (c.current.Some? ==> c.current.value < |s.tasks|)
    && (c.registered ==> c.idle < |s.tasks| && c.current.Some?)
  }

  ghost predicate HasCurrent(s: Sched, cpu: nat) {
    cpu < |s.cpus| && s.cpus[cpu].current.Some? && s.cpus[cpu].current.value < |s.tasks|
  }

  function Me(s: Sched, cpu: nat): (i: nat)
    requires HasCurrent(s, cpu)
  { s.cpus[cpu].current.value }

  // ---------------------------------------------------------------- tasks

  /** A task built by TaskControlBlock::new: Ready, its context on its own stack. */
  function NewTask(id: nat, priority: nat, at: nat): (t: Task) {
    Task(id, Ready, priority, Context(id, at), None, None, [], None, 0, 0, false)
  }

  /** TaskControlBlock::adopt_current: the boot loop of `cpu` becomes its idle task. */
  function IdleTask(id: nat, cpu: nat): (t: Task) {
    Task(id, Running, PRIORITY_IDLE, Context(0, 0), Some(cpu), Some(cpu), [], None, 0, 0, false)
  }

  function RegisterCpu(s: Sched, cpu: nat, hwId: nat, id: nat): (r: Sched)
    requires cpu < |s.cpus|
  {
    s.(tasks := s.tasks + [IdleTask(id, cpu)],
       cpus := s.cpus[cpu := Cpu(true, hwId, Some(|s.tasks|), |s.tasks|)])
  }

  /** First slot at or after `i` the reaper has released, or the end of the table. */
  function ReusableFrom(ts: seq<Task>, i: nat): (k: nat)
    requires i <= |ts|
    ensures i <= k <= |ts|
    ensures k < |ts| ==> ts[k].state == Exited && ts[k].reaped
    ensures forall j :: i <= j < k ==> !(ts[j].state == Exited && ts[j].reaped)
    decreases |ts| - i
  {
    if i == |ts| || (ts[i].state == Exited && ts[i].reaped) then i else ReusableFrom(ts, i + 1)
  }

  function AddTask(s: Sched, t: Task): (r: Sched) {
    var k := ReusableFrom(s.tasks, 0);
    if k < |s.tasks| then s.(tasks := s.tasks[k := t]) else s.(tasks := s.tasks + [t])
  }

  predicate Reapable(t: Task) { t.state == Exited && !t.reaped && t.onCpu.None? }

  /** How many of the first `n` slots are Reapable. */
  function ReapableCount(ts: seq<Task>, n: nat): (k: nat)
    requires n <= |ts|
    ensures k <= n
  {
    if n == 0 then 0 else ReapableCount(ts, n - 1) + if Reapable(ts[n - 1]) then 1 else 0
  }

  /** Slot `i` after collect_exited with room for `cap`: reaped if it is among the first `cap` reapable ones. */
  function Collected(ts: seq<Task>, cap: nat, i: nat): (t: Task)
    requires i < |ts|
  {
    if Reapable(ts[i]) && ReapableCount(ts, i) < cap then ts[i].(reaped := true) else ts[i]
  }

  function CollectExited(s: Sched, cap: nat): (r: Sched) {
    s.(tasks := seq(|s.tasks|, i requires 0 <= i < |s.tasks| => Collected(s.tasks, cap, i)))
  }

  /** Of the tasks to be reaped as many are left as there was no room for; nothing else about any task changes. */
  lemma {:induction false} CollectTakes(s: Sched, cap: nat, n: nat)
    requires n <= |s.tasks|
    ensures var ts, ts' := s.tasks, CollectExited(s, cap).tasks;
      && |ts'| == |ts|
      && ReapableCount(ts', n) == (if ReapableCount(ts, n) <= cap then 0 else ReapableCount(ts, n) - cap)
      && forall i :: 0 <= i < n ==>
           && ts'[i] == ts[i].(reaped := ts'[i].reaped) && (ts[i].reaped ==> ts'[i].reaped)
           && (ts'[i].reaped && !ts[i].reaped ==> ts[i].state == Exited && ts[i].onCpu.None?)
  {
    if n > 0 { CollectTakes(s, cap, n - 1); }
  }

  // ---------------------------------------------------------------- switching

  function Awake(t: Task, now: nat): (r: Task) {
    if t.state == Sleeping && t.wakeTick <= now then t.(state := Ready) else t
  }

  function Wake(ts: seq<Task>, now: nat): (r: seq<Task>)
    ensures |r| == |ts|
  {
    seq(|ts|, i requires 0 <= i < |ts| => Awake(ts[i], now))
  }

  /** The task leaving the CPU: context saved, off the CPU, Ready if it was Running. */
  function Saved(t: Task, sp: Context): (r: Task) {
    t.(context := sp, onCpu := None, state := if t.state == Running then Ready else t.state)
  }

  predicate Eligible(t: Task, cpu: nat) {
    && t.state == Ready && t.onCpu.None?
    && t.priority != PRIORITY_IDLE
    && (t.pinned.Some? ==> t.pinned.value == cpu)
  }

  function At(ts: seq<Task>, cursor: nat, offset: nat): (i: nat)
    requires |ts| > 0
    ensures i < |ts|
  { (cursor + offset) % |ts| }

  /** The round-robin scan: the eligible task at the smallest offset from the cursor, if any. */
  function Scan(ts: seq<Task>, cursor: nat, cpu: nat, offset: nat): (r: Option<nat>)
    requires |ts| > 0 && 1 <= offset <= |ts| + 1
    ensures r.Some? ==> r.value < |ts| && Eligible(ts[r.value], cpu)
    decreases |ts| + 1 - offset
  {
    if offset > |ts| then None
    else
      var i := At(ts, cursor, offset);
      if Eligible(ts[i], cpu) then Some(i) else Scan(ts, cursor, cpu, offset + 1)
  }

  /** No offset from `from` up to `k` holds an eligible task. */
  ghost predicate NoneBefore(ts: seq<Task>, cursor: nat, cpu: nat, from: nat, k: nat)
    requires |ts| > 0
  {
    forall j {:trigger At(ts, cursor, j)} :: from <= j < k ==> !Eligible(ts[At(ts, cursor, j)], cpu)
  }

  /** The scan finds the first eligible offset, and fails only when there is none. */
  lemma {:induction false} ScanFirst(ts: seq<Task>, cursor: nat, cpu: nat, offset: nat) returns (k: nat)
    requires |ts| > 0 && 1 <= offset <= |ts| + 1
    ensures offset <= k <= |ts| + 1 && NoneBefore(ts, cursor, cpu, offset, k)
    ensures Scan(ts, cursor, cpu, offset) == if k <= |ts| then Some(At(ts, cursor, k)) else None
    decreases |ts| + 1 - offset
  {
    if offset > |ts| || Eligible(ts[At(ts, cursor, offset)], cpu) {
      k := offset;
    } else {
      k := ScanFirst(ts, cursor, cpu, offset + 1);
    }
  }

  function PickNext(s: Sched, cpu: nat): (r: (nat, Sched))
    requires |s.tasks| > 0 && cpu < |s.cpus|
  {
    match Scan(s.tasks, s.cursor, cpu, 1)
    case Some(i) => (i, s.(cursor := i))
    case None => (s.cpus[cpu].idle, s)
  }

  function Clock(s: Sched, cpu: nat, timer: bool): (r: nat) {
    if timer && cpu == 0 then s.jiffies + 1 else s.jiffies
  }

  /** The table just before the next task is picked. */
  function SwitchOut(s: Sched, cpu: nat, sp: Context, timer: bool): (r: Sched)
    requires HasCurrent(s, cpu)
    ensures |r.tasks| == |s.tasks| && r.cpus == s.cpus && r.cursor == s.cursor
  {
    var now := Clock(s, cpu, timer);
    var ts := Wake(s.tasks, now);
    var me := Me(s, cpu);
    s.(jiffies := now, tasks := ts[me := Saved(ts[me], sp)])
  }

  function Dispatch(s: Sched, cpu: nat, next: nat): (r: Sched)
    requires cpu < |s.cpus| && next < |s.tasks|
  {
    s.(tasks := s.tasks[next := s.tasks[next].(state := Running, onCpu := Some(cpu))],
       cpus := s.cpus[cpu := s.cpus[cpu].(current := Some(next))])
  }

  /** on_tick: the table after the switch and the stack pointer to continue on. */
  function OnTick(s: Sched, cpu: nat, sp: Context, timer: bool): (r: (Sched, Context))
    requires Shape(s) && cpu < |s.cpus|
  {
    if !s.cpus[cpu].registered || s.tasks == [] then (s, sp)
    else
      var out := SwitchOut(s, cpu, sp, timer);
      var (next, picked) := PickNext(out, cpu);
      (Dispatch(picked, cpu, next), picked.tasks[next].context)
  }

  // ---------------------------------------------------------------- IPC

  predicate Live(t: Task) { t.state != Exited }

  function FindLiveFrom(ts: seq<Task>, id: nat, i: nat): (k: nat)
    requires i <= |ts|
    ensures i <= k <= |ts|
    ensures k < |ts| ==> ts[k].id == id && Live(ts[k])
    ensures forall j :: i <= j < k ==> !(ts[j].id == id && Live(ts[j]))
    decreases |ts| - i
  {
    if i == |ts| || (ts[i].id == id && Live(ts[i])) then i else FindLiveFrom(ts, id, i + 1)
  }

  function FindLive(ts: seq<Task>, id: nat): (k: nat)
    ensures k <= |ts|
    ensures k < |ts| ==> ts[k].id == id && Live(ts[k])
    ensures forall j :: 0 <= j < k ==> !(ts[j].id == id && Live(ts[j]))
  { FindLiveFrom(ts, id, 0) }

  /** CPU `k` schedules, is not the excluded one, and runs its own idle task. */
  ghost predicate IdlesAt(cpus: seq<Cpu>, exclude: nat, k: nat)
    requires k < |cpus|
  { cpus[k].registered && k != exclude && cpus[k].current.Some? && cpus[k].current.value == cpus[k].idle }

  /** `r` is the hardware number of the first such CPU, if there is any. */
  ghost predicate FirstIdle(cpus: seq<Cpu>, exclude: nat, r: Option<nat>) {
    if r.None? then forall k :: 0 <= k < |cpus| ==> !IdlesAt(cpus, exclude, k)
    else exists k ::
      0 <= k < |cpus| && IdlesAt(cpus, exclude, k) && r.value == cpus[k].hwId
      && forall j :: 0 <= j < k ==> !IdlesAt(cpus, exclude, j)
  }

  /** First registered CPU at or after `c`, other than `exclude`, running its idle task. */
  function IdleCpuFrom(cpus: seq<Cpu>, exclude: nat, c: nat): (r: Option<nat>)
    requires c <= |cpus|
    ensures r.None? <==> forall k :: c <= k < |cpus| ==> !IdlesAt(cpus, exclude, k)
    ensures r.Some? ==>
      exists k ::
        c <= k < |cpus| && IdlesAt(cpus, exclude, k) && r.value == cpus[k].hwId
        && forall j :: c <= j < k ==> !IdlesAt(cpus, exclude, j)
    decreases |cpus| - c
  {
    if c == |cpus| then None
    else if cpus[c].registered && c != exclude && cpus[c].current == Some(cpus[c].idle) then
      assert IdlesAt(cpus, exclude, c);
      Some(cpus[c].hwId)
    else IdleCpuFrom(cpus, exclude, c + 1)
  }

  function Readied(t: Task, from: TaskState): (r: Task) {
    if t.state == from then t.(state := Ready) else t
  }

  function Kick(s: Sched, t: Task, from: TaskState, cpu: nat): (r: Option<nat>) {
    if t.state == from then IdleCpuFrom(s.cpus, cpu, 0) else None
  }

  datatype Outcome<T> = Ok(value: T) | Err(status: Status)

  function PostStatus(s: Sched, cpu: nat, receiver: nat): (r: Outcome<nat>)
    requires HasCurrent(s, cpu)
    ensures r.Ok? ==>
      r.value < |s.tasks| && r.value != Me(s, cpu) && Live(s.tasks[r.value]) && s.tasks[r.value].id == receiver
      && |s.tasks[r.value].inbox| < 32
    ensures r == Err(InvalidParam) <==> receiver == s.tasks[Me(s, cpu)].id
    ensures r == Err(NotFound) <==>
      receiver != s.tasks[Me(s, cpu)].id
      && forall i :: 0 <= i < |s.tasks| ==> s.tasks[i].id == receiver ==> s.tasks[i].state == Exited
    ensures r == Err(Busy) ==>
      exists i ::
        0 <= i < |s.tasks| && s.tasks[i].id == receiver && s.tasks[i].state != Exited && |s.tasks[i].inbox| >= 32
    ensures r.Err? ==> r.status in {InvalidParam, NotFound, Busy}
  {
    if receiver == s.tasks[Me(s, cpu)].id then Err(InvalidParam)
    else
      var ri := FindLive(s.tasks, receiver);
      if ri == |s.tasks| then Err(NotFound)
      else if |s.tasks[ri].inbox| >= INBOX_CAPACITY then Err(Busy)
      else Ok(ri)
  }

  function Stamped(m: Rqb, sender: nat, receiver: nat): (r: Rqb) { m.(sender := sender, receiver := receiver) }

  /** post_request: queue the request, block the caller, wake the receiver. */
  function PostRequest(s: Sched, cpu: nat, receiver: nat, msg: Rqb): (r: (Sched, Outcome<Option<nat>>))
    requires HasCurrent(s, cpu)
  {
    var me := Me(s, cpu);
    match PostStatus(s, cpu, receiver)
    case Err(e) => (s, Err(e))
    case Ok(ri) =>
      var to := s.tasks[ri].(inbox := s.tasks[ri].inbox + [Stamped(msg, s.tasks[me].id, receiver)]);
      var from := s.tasks[me].(state := WaitingReply, waitFor := receiver, reply := None);
      (s.(tasks := s.tasks[me := from][ri := Readied(to, WaitingRqb)]), Ok(Kick(s, to, WaitingRqb, cpu)))
  }

  function TakeRequest(s: Sched, cpu: nat, block: bool): (r: (Sched, Option<Rqb>))
    requires HasCurrent(s, cpu)
  {
    var me := Me(s, cpu);
    var t := s.tasks[me];
    if t.inbox != [] then (s.(tasks := s.tasks[me := t.(inbox := t.inbox[1..])]), Some(t.inbox[0]))
    else if block then (s.(tasks := s.tasks[me := t.(state := WaitingRqb)]), None)
    else (s, None)
  }

  predicate AwaitsReply(t: Task, from: nat) { t.state == WaitingReply && t.waitFor == from && t.reply.None? }

  function ReplyStatus(s: Sched, cpu: nat, sender: nat): (r: Outcome<nat>)
    requires HasCurrent(s, cpu)
    ensures r.Ok? ==>
      r.value < |s.tasks| && s.tasks[r.value].id == sender && AwaitsReply(s.tasks[r.value], s.tasks[Me(s, cpu)].id)
    ensures r == Err(NotFound) <==>
      forall i :: 0 <= i < |s.tasks| ==> s.tasks[i].id == sender ==> s.tasks[i].state == Exited
    ensures r.Err? && r != Err(NotFound) ==>
      r == Err(InvalidParam)
      && exists i ::
           0 <= i < |s.tasks| && s.tasks[i].id == sender && s.tasks[i].state != Exited
           && !AwaitsReply(s.tasks[i], s.tasks[Me(s, cpu)].id)
  {
    var si := FindLive(s.tasks, sender);
    if si == |s.tasks| then Err(NotFound)
    else if !AwaitsReply(s.tasks[si], s.tasks[Me(s, cpu)].id) then Err(InvalidParam)
    else Ok(si)
  }

  function Answered(t: Task, m: Rqb): (r: Task) { t.(reply := Some(m), state := Ready) }

  function PostReply(s: Sched, cpu: nat, sender: nat, msg: Rqb): (r: (Sched, Outcome<Option<nat>>))
    requires HasCurrent(s, cpu)
  {
    match ReplyStatus(s, cpu, sender)
    case Err(e) => (s, Err(e))
    case Ok(si) =>
      (s.(tasks := s.tasks[si := Answered(s.tasks[si], Stamped(msg, s.tasks[Me(s, cpu)].id, sender))]),
       Ok(IdleCpuFrom(s.cpus, cpu, 0)))
  }

  /** Whom a post or a reply kicks: the first other CPU that idles, exactly if it has readied a task. */
  lemma Kicks(s: Sched, cpu: nat, to: nat, msg: Rqb)
    requires HasCurrent(s, cpu)
    ensures PostReply(s, cpu, to, msg).1.Ok? ==> FirstIdle(s.cpus, cpu, PostReply(s, cpu, to, msg).1.value)
    ensures PostRequest(s, cpu, to, msg).1.Ok? ==>
      var k, kick := FindLive(s.tasks, to), PostRequest(s, cpu, to, msg).1.value;
      && k < |s.tasks|
      && if s.tasks[k].state == WaitingRqb then FirstIdle(s.cpus, cpu, kick) else kick.None?
  {}

  /** The critical section of send_rqb: take the reply, or block again. */
  function TakeReply(s: Sched, cpu: nat): (r: (Sched, Option<Rqb>))
    requires HasCurrent(s, cpu)
  {
    var me := Me(s, cpu);
    var t := s.tasks[me];
    if t.reply.Some? then (s.(tasks := s.tasks[me := t.(reply := None)]), t.reply)
    else (s.(tasks := s.tasks[me := t.(state := WaitingReply)]), None)
  }

  function AbortNotice(from: nat, to: nat): (r: Rqb) { Rqb(0, STATUS_ABORTED, from, to, []) }

  function Released(t: Task, dead: nat): (r: Task) {
    if AwaitsReply(t, dead) then Answered(t, AbortNotice(dead, t.id)) else t
  }

  /** mark_exited: the caller is Exited with no inbox and everyone blocked on it gets an Aborted reply. */
  function MarkExited(s: Sched, cpu: nat): (r: Sched)
    requires HasCurrent(s, cpu)
    ensures |r.tasks| == |s.tasks|
  {
    var me := Me(s, cpu);
    var ts := s.tasks[me := s.tasks[me].(state := Exited, inbox := [])];
    s.(tasks := seq(|ts|, i requires 0 <= i < |ts| => Released(ts[i], s.tasks[me].id)))
  }

  function SleepUntil(s: Sched, cpu: nat, until: nat): (r: Sched)
    requires HasCurrent(s, cpu)
  {
    var me := Me(s, cpu);
    s.(tasks := s.tasks[me := s.tasks[me].(wakeTick := until, state := Sleeping)])
  }
}

/**
  The scheduler as a state machine over all CPUs. One step is one critical
  section of the scheduler lock, except for a context switch, which takes three:
  on_tick under the lock, the move to the new stack, and scheduler_unlock.
 */
module SchedulerRuns {
  import opened Base
  import opened SchedulerModel

  /** Where a task is inside send_rqb: not in it, request posted but not yet yielded, or yielded. */
  datatype Pc = Free | Posted | Yielded

  /**
    What the proofs remember about a task: its place in send_rqb, the request it
    posted last and the slot it was posted to, the requests it has received and
    not answered, everything ever posted to it and received by it, and the
    context it was last switched out with.
   */
  datatype Aux = Aux(pc: Pc, posted: Rqb, target: nat, held: seq<Rqb>, sent: seq<Rqb>, got: seq<Rqb>, saved: Context)

  datatype Lock = Unlocked | Held(cpu: nat, sp: Context, moved: bool)

  /** `stand[c]` is the task whose stack CPU c is standing on (0: its boot stack). */
  datatype World = World(s: Sched, aux: seq<Aux>, nextId: nat, limbo: set<nat>, stand: seq<nat>, lock: Lock)

  datatype Label =
    | Issue
    | Register(cpu: nat, hwId: nat, id: nat)
    | Add(id: nat, priority: nat, at: nat)
    | Collect(cap: nat)
    | Tick(cpu: nat, at: nat, timer: bool)
    | Restack(cpu: nat)
    | Unlock(cpu: nat)
    | Post(cpu: nat, receiver: nat, msg: Rqb)
    | Take(cpu: nat, block: bool)
    | Reply(cpu: nat, sender: nat, msg: Rqb)
    | Finish(cpu: nat)
    | Exit(cpu: nat)
    | Sleep(cpu: nat, until: nat)

  const NO_RQB := Rqb(0, 0, 0, 0, [])
  const ID_LIMIT: nat := 0xFFFF_FFFF

  function NewAux(c: Context): (a: Aux) { Aux(Free, NO_RQB, 0, [], [], [], c) }

  function Init(): (w: World) {
    World(Sched([], seq(MAX_CPUS, _ => Cpu(false, 0, None, 0)), 0, 0), [], 1, {}, seq(MAX_CPUS, _ => 0), Unlocked)
  }

  // ---------------------------------------------------------------- steps

  predicate OnLine(w: World, cpu: nat) {
    cpu < |w.s.cpus| && w.s.cpus[cpu].registered
  }

  /**
    The current task of `cpu` executes code of its own: it is outside send_rqb, has not exited,
    and is not the idle loop.
   */
  ghost predicate Acting(w: World, cpu: nat) {
    && w.lock == Unlocked && OnLine(w, cpu) && HasCurrent(w.s, cpu) && |w.aux| == |w.s.tasks|
    && var me := Me(w.s, cpu);
       me != w.s.cpus[cpu].idle && Live(w.s.tasks[me]) && w.aux[me].pc == Free
  }

  ghost predicate Enabled(w: World, l: Label) {
    match l
    case Issue => w.nextId < ID_LIMIT
    case Register(cpu, _, id) => w.lock == Unlocked && cpu < |w.s.cpus| && cpu < |w.stand| && !w.s.cpus[cpu].registered
      && id in w.limbo
    case Add(id, _, _) => w.lock == Unlocked && id in w.limbo && |w.aux| == |w.s.tasks|
    case Collect(_) => w.lock == Unlocked
    case Tick(cpu, _, _) => w.lock == Unlocked && Shape(w.s) && cpu < |w.s.cpus| && cpu < |w.stand|
      && |w.aux| == |w.s.tasks|
    case Restack(cpu) => w.lock.Held? && w.lock.cpu == cpu && !w.lock.moved && cpu < |w.stand|
    case Unlock(cpu) => w.lock.Held? && w.lock.cpu == cpu && w.lock.moved
    case Post(cpu, _, _) => Acting(w, cpu)
    case Take(cpu, _) => Acting(w, cpu)
    case Reply(cpu, _, _) => Acting(w, cpu)
    case Finish(cpu) => w.lock == Unlocked && OnLine(w, cpu) && HasCurrent(w.s, cpu) && |w.aux| == |w.s.tasks|
      && w.aux[Me(w.s, cpu)].pc == Yielded
    case Exit(cpu) => Acting(w, cpu)
    case Sleep(cpu, _) => Acting(w, cpu)
  }

  ghost function AddStep(w: World, id: nat, priority: nat, at: nat): (r: World)
    requires Enabled(w, Add(id, priority, at))
  {
    var t := NewTask(id, priority, at);
    var k := ReusableFrom(w.s.tasks, 0);
    w.(s := AddTask(w.s, t), limbo := w.limbo - {id},
       aux := if k < |w.aux| then w.aux[k := NewAux(t.context)] else w.aux + [NewAux(t.context)])
  }

  ghost function TickStep(w: World, cpu: nat, at: nat, timer: bool): (r: World)
    requires Enabled(w, Tick(cpu, at, timer))
  {
    var sp := Context(w.stand[cpu], at);
    var (s', sp') := OnTick(w.s, cpu, sp, timer);
    var w' := w.(s := s', lock := Held(cpu, sp', false));
    if w.s.cpus[cpu].registered then
      var me := Me(w.s, cpu);
      w'.(aux := w.aux[me := w.aux[me].(saved := sp, pc := if w.aux[me].pc == Posted then Yielded else w.aux[me].pc)])
    else w'
  }

  ghost function PostStep(w: World, cpu: nat, receiver: nat, msg: Rqb): (r: World)
    requires Acting(w, cpu)
  {
    var me := Me(w.s, cpu);
    var w' := w.(s := PostRequest(w.s, cpu, receiver, msg).0);
    match PostStatus(w.s, cpu, receiver)
    case Err(_) => w'
    case Ok(ri) =>
      var m := Stamped(msg, w.s.tasks[me].id, receiver);
      w'.(aux := w.aux[me := w.aux[me].(pc := Posted, posted := m,
        target := ri)][ri := w.aux[ri].(sent := w.aux[ri].sent + [m])])
  }

  ghost function TakeStep(w: World, cpu: nat, block: bool): (r: World)
    requires Acting(w, cpu)
  {
    var me := Me(w.s, cpu);
    var (s', m) := TakeRequest(w.s, cpu, block);
    var w' := w.(s := s');
    if m.None? then w'
    else w'.(aux := w.aux[me := w.aux[me].(held := w.aux[me].held + [m.value], got := w.aux[me].got + [m.value])])
  }

  /** The requests of `ms` that were not sent by `sender`. */
  function Without(ms: seq<Rqb>, sender: nat): (r: seq<Rqb>) {
    if ms == [] then [] else (if ms[0].sender == sender then [] else [ms[0]]) + Without(ms[1..], sender)
  }

  ghost function ReplyStep(w: World, cpu: nat, sender: nat, msg: Rqb): (r: World)
    requires Acting(w, cpu)
  {
    var me := Me(w.s, cpu);
    var w' := w.(s := PostReply(w.s, cpu, sender, msg).0);
    if ReplyStatus(w.s, cpu, sender).Err? then w'
    else w'.(aux := w.aux[me := w.aux[me].(held := Without(w.aux[me].held, sender))])
  }

  ghost function FinishStep(w: World, cpu: nat): (r: World)
    requires Enabled(w, Finish(cpu))
  {
    var me := Me(w.s, cpu);
    var (s', m) := TakeReply(w.s, cpu);
    w.(s := s', aux := w.aux[me := w.aux[me].(pc := if m.Some? then Free else Posted)])
  }

  ghost function ExitStep(w: World, cpu: nat): (r: World)
    requires Acting(w, cpu)
  {
    var me := Me(w.s, cpu);
    w.(s := MarkExited(w.s, cpu), aux := w.aux[me := w.aux[me].(held := [])])
  }

  ghost function Next(w: World, l: Label): (r: World)
    requires Enabled(w, l)
  {
    match l
    case Issue => w.(nextId := w.nextId + 1, limbo := w.limbo + {w.nextId})
    case Register(cpu, hwId, id) =>
      w.(s := RegisterCpu(w.s, cpu, hwId, id), limbo := w.limbo - {id}, stand := w.stand[cpu := id],
         aux := w.aux + [NewAux(Context(0, 0))])
    case Add(id, priority, at) => AddStep(w, id, priority, at)
    case Collect(cap) => w.(s := CollectExited(w.s, cap))
    case Tick(cpu, at, timer) => TickStep(w, cpu, at, timer)
    case Restack(cpu) => w.(stand := w.stand[cpu := w.lock.sp.owner], lock := w.lock.(moved := true))
    case Unlock(cpu) => w.(lock := Unlocked)
    case Post(cpu, receiver, msg) => PostStep(w, cpu, receiver, msg)
    case Take(cpu, block) => TakeStep(w, cpu, block)
    case Reply(cpu, sender, msg) => ReplyStep(w, cpu, sender, msg)
    case Finish(cpu) => FinishStep(w, cpu)
    case Exit(cpu) => ExitStep(w, cpu)
    case Sleep(cpu, until) => w.(s := SleepUntil(w.s, cpu, until))
  }

  /** `w'` is reached from `w` by performing `ls` in order, each step enabled. */
  ghost predicate Run(w: World, ls: seq<Label>, w': World)
    decreases |ls|
  {
    if ls == [] then w == w'
    else Enabled(w, ls[0]) && Run(Next(w, ls[0]), ls[1..], w')
  }

  // ---------------------------------------------------------------- stacks

  ghost predicate Sized(w: World) {
    |w.s.cpus| == MAX_CPUS && |w.stand| == MAX_CPUS && |w.aux| == |w.s.tasks|
  }

  ghost predicate IdsOk(w: World) {
    && w.nextId > 0
    && (forall i :: 0 <= i < |w.s.tasks| ==> 0 < w.s.tasks[i].id < w.nextId && w.s.tasks[i].id !in w.limbo)
    && (forall i, j :: 0 <= i < j < |w.s.tasks| ==> w.s.tasks[i].id != w.s.tasks[j].id)
    && (forall x :: x in w.limbo ==> 0 < x < w.nextId)
  }

  /** What `on_cpu`, `pinned_cpu`, `reaped` and the saved context of slot `i` say. */
  ghost predicate TaskOk(w: World, i: nat)
    requires Sized(w) && i < |w.s.tasks|
  {
    var t := w.s.tasks[i];
    && (t.onCpu.Some? ==> OnLine(w, t.onCpu.value) && w.s.cpus[t.onCpu.value].current == Some(i))
    && (t.onCpu.None? ==> t.context.owner == t.id && t.context == w.aux[i].saved && t.state != Running)
    && (t.reaped ==> t.state == Exited && t.onCpu.None?)
    && (t.state == Exited ==> w.aux[i].pc == Free)
    && (t.pinned.Some? ==> OnLine(w, t.pinned.value) && w.s.cpus[t.pinned.value].idle == i)
  }

  /** The current task of an online CPU knows it, and its idle task is pinned, awake and runs nowhere else. */
  ghost predicate CpuOk(w: World, c: nat)
    requires Sized(w) && c < MAX_CPUS
  {
    var cpu := w.s.cpus[c];
    if !cpu.registered then cpu.current.None?
    else
      && HasCurrent(w.s, c) && w.s.tasks[Me(w.s, c)].onCpu == Some(c)
      && cpu.idle < |w.s.tasks|
      && var t := w.s.tasks[cpu.idle];
         t.priority == PRIORITY_IDLE && t.pinned == Some(c) && (t.state == Ready || t.state == Running)
         && (t.onCpu.Some? ==> t.onCpu.value == c) && w.aux[cpu.idle].pc == Free
  }

  ghost predicate Switching(w: World, c: nat) { w.lock.Held? && w.lock.cpu == c && !w.lock.moved }

  /** Which stack CPU `c` stands on: its current task's, except between on_tick and the move to the new stack. */
  ghost predicate StandOk(w: World, c: nat)
    requires Sized(w) && c < MAX_CPUS && CpuOk(w, c)
  {
    if !w.s.cpus[c].registered then
      w.stand[c] == 0 && (w.lock.Held? && w.lock.cpu == c ==> w.lock.sp.owner == 0)
    else
      && (!Switching(w, c) ==> w.stand[c] == w.s.tasks[Me(w.s, c)].id)
      && (w.lock.Held? && w.lock.cpu == c ==> w.lock.sp.owner == w.s.tasks[Me(w.s, c)].id)
      && (Switching(w, c) ==> exists i :: 0 <= i < |w.s.tasks| && Left(w, c, i))
  }

  /** Slot `i` is the task CPU `c` has just switched out but still stands on. */
  ghost predicate Left(w: World, c: nat, i: nat)
    requires Sized(w) && c < MAX_CPUS && i < |w.s.tasks|
  {
    var t := w.s.tasks[i];
    t.id == w.stand[c] && !t.reaped && (t.onCpu.Some? ==> t.onCpu.value == c)
  }

  ghost predicate CoreInv(w: World) {
    && Sized(w) && IdsOk(w)
    && (w.lock.Held? ==> w.lock.cpu < MAX_CPUS)
    && (forall i :: 0 <= i < |w.s.tasks| ==> TaskOk(w, i))
    && (forall c :: 0 <= c < MAX_CPUS ==> CpuOk(w, c) && StandOk(w, c))
  }

  lemma CoreInit()
    ensures CoreInv(Init())
  {}

  lemma CoreIssue(w: World)
    requires CoreInv(w) && Enabled(w, Issue)
    ensures CoreInv(Next(w, Issue))
  {
    var w' := Next(w, Issue);
    forall i | 0 <= i < |w'.s.tasks| ensures TaskOk(w', i) { assert TaskOk(w, i); }
    forall c | 0 <= c < MAX_CPUS ensures CpuOk(w', c) && StandOk(w', c) {
      assert CpuOk(w, c);
      StandSame(w, w', c);
    }
  }

  /** CPU `c` stands where it stood if the lock, its stack and the slots' stack-related fields are unchanged. */
  lemma StandSame(w: World, w': World, c: nat)
    requires CoreInv(w) && Sized(w') && c < MAX_CPUS && CpuOk(w', c)
    requires w'.lock == w.lock && w'.stand[c] == w.stand[c] && w'.s.cpus[c] == w.s.cpus[c]
    requires |w'.s.tasks| == |w.s.tasks|
    requires forall i :: 0 <= i < |w.s.tasks| ==> SameSlot(w.s.tasks[i], w'.s.tasks[i])
    ensures StandOk(w', c)
  {
    assert CpuOk(w, c) && StandOk(w, c);
    if w.s.cpus[c].registered && Switching(w, c) {
      var i :| 0 <= i < |w.s.tasks| && Left(w, c, i);
      assert Left(w', c, i);
    }
  }

  ghost predicate SameSlot(t: Task, t': Task) {
    t'.id == t.id && t'.onCpu == t.onCpu && t'.reaped == t.reaped
  }

  lemma CoreRegister(w: World, cpu: nat, hwId: nat, id: nat)
    requires CoreInv(w) && Enabled(w, Register(cpu, hwId, id))
    ensures CoreInv(Next(w, Register(cpu, hwId, id)))
  {
    var w' := Next(w, Register(cpu, hwId, id));
    forall i | 0 <= i < |w'.s.tasks| ensures TaskOk(w', i) { if i < |w.s.tasks| { assert TaskOk(w, i); } }
    forall c | 0 <= c < MAX_CPUS ensures CpuOk(w', c) && StandOk(w', c) { assert CpuOk(w, c) && StandOk(w, c); }
  }

  lemma CoreAdd(w: World, id: nat, priority: nat, at: nat)
    requires CoreInv(w) && Enabled(w, Add(id, priority, at))
    ensures CoreInv(Next(w, Add(id, priority, at)))
  {
    var w' := Next(w, Add(id, priority, at));
    forall i | 0 <= i < |w'.s.tasks| ensures TaskOk(w', i) { AddTaskOk(w, id, priority, at, i); }
    forall c | 0 <= c < MAX_CPUS ensures CpuOk(w', c) && StandOk(w', c) { AddCpuOk(w, id, priority, at, c); }
  }

  lemma AddTaskOk(w: World, id: nat, priority: nat, at: nat, i: nat)
    requires CoreInv(w) && Enabled(w, Add(id, priority, at)) && i < |AddStep(w, id, priority, at).s.tasks|
    ensures Sized(AddStep(w, id, priority, at)) && TaskOk(AddStep(w, id, priority, at), i)
  {
    if i < |w.s.tasks| { assert TaskOk(w, i); }
  }

  /** The slot reused, if any, is no CPU's. */
  lemma AddCpuOk(w: World, id: nat, priority: nat, at: nat, c: nat)
    requires CoreInv(w) && Enabled(w, Add(id, priority, at)) && c < MAX_CPUS
    ensures Sized(AddStep(w, id, priority, at)) && CpuOk(AddStep(w, id, priority, at), c)
      && StandOk(AddStep(w, id, priority, at), c)
  {
    var k := ReusableFrom(w.s.tasks, 0);
    if k < |w.s.tasks| { assert TaskOk(w, k); }
    assert CpuOk(w, c) && StandOk(w, c);
  }

  lemma CoreCollect(w: World, cap: nat)
    requires CoreInv(w) && Enabled(w, Collect(cap))
    ensures CoreInv(Next(w, Collect(cap)))
  {
    var w' := Next(w, Collect(cap));
    forall i | 0 <= i < |w'.s.tasks| ensures TaskOk(w', i) { assert TaskOk(w, i); }
    forall c | 0 <= c < MAX_CPUS ensures CpuOk(w', c) && StandOk(w', c) { assert CpuOk(w, c) && StandOk(w, c); }
  }

  lemma CoreMove(w: World, l: Label)
    requires CoreInv(w) && (l.Restack? || l.Unlock?) && Enabled(w, l)
    ensures CoreInv(Next(w, l))
  {
    var w' := Next(w, l);
    forall i | 0 <= i < |w'.s.tasks| ensures TaskOk(w', i) { assert TaskOk(w, i); }
    forall c | 0 <= c < MAX_CPUS ensures CpuOk(w', c) && StandOk(w', c) { assert CpuOk(w, c) && StandOk(w, c); }
  }

  /** What slot `i` holds once CPU `cpu` has woken the sleepers and saved its current task at `sp`. */
  ghost function Parked(s: Sched, cpu: nat, sp: Context, now: nat, i: nat): (t: Task)
    requires HasCurrent(s, cpu) && i < |s.tasks|
  {
    var t := Awake(s.tasks[i], now);
    if i == Me(s, cpu) then Saved(t, sp) else t
  }

  /**
    A switch on an online CPU: the current task is parked at `sp`, sleepers wake,
    and slot `next` runs, which was parked, Ready, and allowed on this CPU.
   */
  ghost predicate Switched(w: World, w': World, cpu: nat, sp: Context, now: nat, next: nat) {
    && OnLine(w, cpu) && HasCurrent(w.s, cpu) && |w.aux| == |w.s.tasks| == |w'.s.tasks| && next < |w.s.tasks|
    && (forall i :: 0 <= i < |w.s.tasks| && i != next ==> w'.s.tasks[i] == Parked(w.s, cpu, sp, now, i))
    && w'.s.cpus == w.s.cpus[cpu := w.s.cpus[cpu].(current := Some(next))]
    && (var t := Parked(w.s, cpu, sp, now, next);
       && w'.s.tasks[next] == t.(state := Running, onCpu := Some(cpu))
       && w'.lock == Held(cpu, t.context, false)
       && t.onCpu.None? && t.state == Ready
       && (t.priority == PRIORITY_IDLE ==> next == w.s.cpus[cpu].idle)
       && (t.pinned.Some? ==> t.pinned.value == cpu))
    && (var a := w.aux[Me(w.s, cpu)];
       w'.aux == w.aux[Me(w.s, cpu) := a.(saved := sp, pc := if a.pc == Posted then Yielded else a.pc)])
    && w'.nextId == w.nextId && w'.limbo == w.limbo && w'.stand == w.stand
  }

  lemma OnTickEffect(s: Sched, cpu: nat, sp: Context, timer: bool) returns (now: nat, next: nat)
    requires Shape(s) && cpu < |s.cpus| && s.cpus[cpu].registered
    ensures HasCurrent(s, cpu) && now == Clock(s, cpu, timer) && next < |s.tasks|
    ensures var (s', sp') := OnTick(s, cpu, sp, timer);
      && |s'.tasks| == |s.tasks|
      && (forall i :: 0 <= i < |s.tasks| && i != next ==> s'.tasks[i] == Parked(s, cpu, sp, now, i))
      && s'.cpus == s.cpus[cpu := s.cpus[cpu].(current := Some(next))]
      && var t := Parked(s, cpu, sp, now, next);
         && s'.tasks[next] == t.(state := Running, onCpu := Some(cpu))
         && sp' == t.context
         && (Eligible(t, cpu) || next == s.cpus[cpu].idle)
  {
    now := Clock(s, cpu, timer);
    assert CpuShape(s, s.cpus[cpu]);
    var out := SwitchOut(s, cpu, sp, timer);
    assert forall i :: 0 <= i < |s.tasks| ==> out.tasks[i] == Parked(s, cpu, sp, now, i);
    var r := PickNext(out, cpu);
    next := r.0;
    assert r.1.tasks == out.tasks && r.1.cpus == s.cpus;
  }

  lemma TickSwitches(w: World, cpu: nat, at: nat, timer: bool) returns (sp: Context, now: nat, next: nat)
    requires CoreInv(w) && Enabled(w, Tick(cpu, at, timer)) && OnLine(w, cpu)
    ensures HasCurrent(w.s, cpu) && sp.owner == w.s.tasks[Me(w.s, cpu)].id
    ensures Switched(w, TickStep(w, cpu, at, timer), cpu, sp, now, next)
  {
    sp := Context(w.stand[cpu], at);
    now, next := OnTickEffect(w.s, cpu, sp, timer);
    assert CpuOk(w, cpu) && StandOk(w, cpu) && TaskOk(w, w.s.cpus[cpu].idle);
  }

  /** A pinned task is the idle task of an online CPU, runs only there, and is Ready or Running. */
  lemma PinnedHome(w: World, i: nat)
    requires CoreInv(w) && i < |w.s.tasks|
    ensures w.s.tasks[i].pinned.Some? ==> var t := w.s.tasks[i];
      && OnLine(w, t.pinned.value) && w.s.cpus[t.pinned.value].idle == i
      && (t.onCpu.Some? ==> t.onCpu == t.pinned)
      && (t.state == Ready || t.state == Running) && w.aux[i].pc == Free
  {
    assert TaskOk(w, i);
    if w.s.tasks[i].pinned.Some? { assert CpuOk(w, w.s.tasks[i].pinned.value); }
  }

  lemma SwitchedTaskOk(w: World, w': World, cpu: nat, sp: Context, now: nat, next: nat, i: nat)
    requires Sized(w) && Switched(w, w', cpu, sp, now, next) && i < |w.s.tasks|
    requires CpuOk(w, cpu) && TaskOk(w, i) && (w.s.tasks[i].onCpu.Some? ==> CpuOk(w, w.s.tasks[i].onCpu.value))
    requires sp.owner == w.s.tasks[Me(w.s, cpu)].id
    ensures Sized(w') && TaskOk(w', i)
  {
    if i != next { LeftTaskOk(w, w', cpu, sp, now, next, i); }
  }

  lemma LeftTaskOk(w: World, w': World, cpu: nat, sp: Context, now: nat, next: nat, i: nat)
    requires Sized(w) && Switched(w, w', cpu, sp, now, next) && i < |w.s.tasks| && i != next
    requires CpuOk(w, cpu) && TaskOk(w, i) && (w.s.tasks[i].onCpu.Some? ==> CpuOk(w, w.s.tasks[i].onCpu.value))
    requires sp.owner == w.s.tasks[Me(w.s, cpu)].id
    ensures Sized(w') && TaskOk(w', i)
  {}

  lemma SwitchedCpuOk(w: World, w': World, cpu: nat, sp: Context, now: nat, next: nat)
    requires Sized(w) && Switched(w, w', cpu, sp, now, next) && w.lock == Unlocked
    requires CpuOk(w, cpu) && StandOk(w, cpu) && TaskOk(w, Me(w.s, cpu)) && TaskOk(w, next)
    requires sp.owner == w.s.tasks[Me(w.s, cpu)].id
    ensures Sized(w') && CpuOk(w', cpu) && StandOk(w', cpu)
  {
    assert Left(w', cpu, Me(w.s, cpu));
  }

  lemma SwitchedOtherCpu(w: World, w': World, cpu: nat, sp: Context, now: nat, next: nat, c: nat)
    requires Sized(w) && Switched(w, w', cpu, sp, now, next) && w.lock == Unlocked && c < MAX_CPUS && c != cpu
    requires CpuOk(w, cpu) && CpuOk(w, c) && StandOk(w, c) && TaskOk(w, next)
    ensures Sized(w') && CpuOk(w', c) && StandOk(w', c)
  {}

  lemma CoreTick(w: World, cpu: nat, at: nat, timer: bool)
    requires CoreInv(w) && Enabled(w, Tick(cpu, at, timer))
    ensures CoreInv(Next(w, Tick(cpu, at, timer)))
  {
    var w' := TickStep(w, cpu, at, timer);
    assert CpuOk(w, cpu) && StandOk(w, cpu);
    if w.s.cpus[cpu].registered {
      var sp, now, next := TickSwitches(w, cpu, at, timer);
      CoreSwitched(w, w', cpu, sp, now, next);
    } else {
      forall i | 0 <= i < |w'.s.tasks| ensures TaskOk(w', i) { assert TaskOk(w, i); }
      forall c | 0 <= c < MAX_CPUS ensures CpuOk(w', c) && StandOk(w', c) { assert CpuOk(w, c) && StandOk(w, c); }
    }
  }

  lemma CoreSwitched(w: World, w': World, cpu: nat, sp: Context, now: nat, next: nat)
    requires CoreInv(w) && w.lock == Unlocked && Switched(w, w', cpu, sp, now, next)
    requires sp.owner == w.s.tasks[Me(w.s, cpu)].id
    ensures CoreInv(w')
  {
    forall i | 0 <= i < |w'.s.tasks| ensures Sized(w') && TaskOk(w', i) {
      assert TaskOk(w, i);
      SwitchedTaskOk(w, w', cpu, sp, now, next, i);
    }
    assert TaskOk(w, Me(w.s, cpu)) && TaskOk(w, next);
    forall c | 0 <= c < MAX_CPUS ensures CpuOk(w', c) && StandOk(w', c) {
      assert CpuOk(w, c) && StandOk(w, c) && CpuOk(w, cpu) && StandOk(w, cpu);
      if c == cpu {
        SwitchedCpuOk(w, w', cpu, sp, now, next);
      } else {
        SwitchedOtherCpu(w, w', cpu, sp, now, next, c);
      }
    }
    forall i | 0 <= i < |w.s.tasks| ensures w'.s.tasks[i].id == w.s.tasks[i].id {}
  }

  /** What every step other than registration, creation, reaping and switching leaves alone. */
  ghost predicate Kept(w: World, w': World) {
    && Sized(w) && Sized(w') && |w'.s.tasks| == |w.s.tasks|
    && w'.nextId == w.nextId && w'.limbo == w.limbo && w'.stand == w.stand && w'.lock == w.lock && w'.s.cpus == w.s.cpus
    && w'.s.cursor == w.s.cursor
    && forall i :: 0 <= i < |w.s.tasks| ==> KeptSlot(w, w', i)
  }

  ghost predicate KeptSlot(w: World, w': World, i: nat)
    requires i < |w.s.tasks| && i < |w'.s.tasks| && i < |w.aux| && i < |w'.aux|
  {
    var t, t' := w.s.tasks[i], w'.s.tasks[i];
    && SameSlot(t, t') && t'.pinned == t.pinned && t'.priority == t.priority && t'.context == t.context
    && w'.aux[i].saved == w.aux[i].saved
    && (t'.state == Running ==> t.state == Running)
    && (t.state == Exited ==> t'.state == Exited)
    && (t'.state == Exited ==> w'.aux[i].pc == Free)
    && (t.pinned.Some? ==> t'.state == t.state && w'.aux[i].pc == w.aux[i].pc)
  }

  lemma CoreKept(w: World, w': World)
    requires CoreInv(w) && Kept(w, w')
    ensures CoreInv(w')
  {
    forall i | 0 <= i < |w'.s.tasks| ensures TaskOk(w', i) { assert TaskOk(w, i) && KeptSlot(w, w', i); }
    forall c | 0 <= c < MAX_CPUS ensures CpuOk(w', c) && StandOk(w', c) {
      assert CpuOk(w, c);
      if w.s.cpus[c].registered { assert KeptSlot(w, w', Me(w.s, c)) && KeptSlot(w, w', w.s.cpus[c].idle); }
      forall i | 0 <= i < |w.s.tasks| ensures SameSlot(w.s.tasks[i], w'.s.tasks[i]) { assert KeptSlot(w, w', i); }
      StandSame(w, w', c);
    }
    assert IdsOk(w') by {
      forall i | 0 <= i < |w.s.tasks| ensures w'.s.tasks[i].id == w.s.tasks[i].id { assert KeptSlot(w, w', i); }
    }
  }

  ghost predicate ByTask(l: Label) { l.Post? || l.Take? || l.Reply? || l.Finish? || l.Exit? || l.Sleep? }

  /** The task executing a step of its own is not an idle task. */
  lemma ActorUnpinned(w: World, cpu: nat)
    requires CoreInv(w) && OnLine(w, cpu) && HasCurrent(w.s, cpu)
    requires Acting(w, cpu) || Enabled(w, Finish(cpu))
    ensures w.s.tasks[Me(w.s, cpu)].pinned.None? && w.s.tasks[Me(w.s, cpu)].onCpu == Some(cpu)
  {
    assert CpuOk(w, cpu);
    PinnedHome(w, Me(w.s, cpu));
  }

  /** What the invariant says about slot `i` when another slot acts. */
  ghost predicate SlotFacts(w: World, i: nat)
    requires Sized(w) && i < |w.s.tasks|
  {
    && (w.s.tasks[i].state == Exited ==> w.aux[i].pc == Free)
    && (w.s.tasks[i].pinned.Some? ==> w.s.tasks[i].state == Ready || w.s.tasks[i].state == Running)
  }

  lemma SlotKnown(w: World, i: nat)
    requires CoreInv(w) && i < |w.s.tasks|
    ensures SlotFacts(w, i)
  {
    assert TaskOk(w, i);
    PinnedHome(w, i);
  }

  lemma KeptPost(w: World, cpu: nat, receiver: nat, msg: Rqb, i: nat)
    requires Sized(w) && Acting(w, cpu) && i < |w.s.tasks| && SlotFacts(w, i) && w.s.tasks[Me(w.s, cpu)].pinned.None?
    ensures var w' := PostStep(w, cpu, receiver, msg); Sized(w') && |w'.s.tasks| == |w.s.tasks| && KeptSlot(w, w', i)
  {}

  lemma KeptReplyExit(w: World, l: Label, i: nat)
    requires Sized(w) && (l.Reply? || l.Exit?) && Acting(w, l.cpu) && i < |w.s.tasks| && SlotFacts(w, i)
      && w.s.tasks[Me(w.s, l.cpu)].pinned.None?
    ensures var w' := Next(w, l); Sized(w') && |w'.s.tasks| == |w.s.tasks| && KeptSlot(w, w', i)
  {}

  lemma KeptTakeSleep(w: World, l: Label, i: nat)
    requires Sized(w) && (l.Take? || l.Sleep? || l.Finish?) && Enabled(w, l) && i < |w.s.tasks| && SlotFacts(w, i)
      && w.s.tasks[Me(w.s, l.cpu)].pinned.None?
    ensures var w' := Next(w, l); Sized(w') && |w'.s.tasks| == |w.s.tasks| && KeptSlot(w, w', i)
  {}

  lemma ActorKept(w: World, l: Label)
    requires CoreInv(w) && ByTask(l) && Enabled(w, l)
    ensures Kept(w, Next(w, l))
  {
    ActorUnpinned(w, l.cpu);
    var w' := Next(w, l);
    forall i | 0 <= i < |w.s.tasks| ensures |w'.s.tasks| == |w.s.tasks| && Sized(w') && KeptSlot(w, w', i) {
      SlotKnown(w, i);
      if l.Post? {
        KeptPost(w, l.cpu, l.receiver, l.msg, i);
      } else if l.Reply? || l.Exit? {
        KeptReplyExit(w, l, i);
      } else {
        KeptTakeSleep(w, l, i);
      }
    }
  }

  lemma CoreStep(w: World, l: Label)
    requires CoreInv(w) && Enabled(w, l)
    ensures CoreInv(Next(w, l))
  {
    match l
    case Issue => CoreIssue(w);
    case Register(cpu, hwId, id) => CoreRegister(w, cpu, hwId, id);
    case Add(id, priority, at) => CoreAdd(w, id, priority, at);
    case Collect(cap) => CoreCollect(w, cap);
    case Tick(cpu, at, timer) => CoreTick(w, cpu, at, timer);
    case Restack(cpu) => CoreMove(w, l);
    case Unlock(cpu) => CoreMove(w, l);
    case _ =>
      ActorKept(w, l);
      CoreKept(w, Next(w, l));
  }

  lemma {:induction false} CoreRun(w: World, ls: seq<Label>, w': World)
    requires CoreInv(w) && Run(w, ls, w')
    ensures CoreInv(w')
    decreases |ls|
  {
    if ls != [] {
      CoreStep(w, ls[0]);
      CoreRun(Next(w, ls[0]), ls[1..], w');
    }
  }

  lemma {:induction false} RunConcat(w: World, ls: seq<Label>, mid: World, ms: seq<Label>, w': World)
    requires Run(w, ls, mid) && Run(mid, ms, w')
    ensures Run(w, ls + ms, w')
    decreases |ls|
  {
    if ls == [] {
      assert ls + ms == ms;
    } else {
      RunConcat(Next(w, ls[0]), ls[1..], mid, ms, w');
      assert (ls + ms)[1..] == ls[1..] + ms;
    }
  }

  /** Slot `i` is where CPU `c` stands. */
  ghost predicate StandsIn(w: World, c: nat, i: nat)
    requires Sized(w) && c < MAX_CPUS && i < |w.s.tasks|
  {
    w.stand[c] == w.s.tasks[i].id && !w.s.tasks[i].reaped
      && (w.s.tasks[i].onCpu.Some? ==> w.s.tasks[i].onCpu.value == c)
  }

  lemma StandSlot(w: World, c: nat) returns (i: nat)
    requires CoreInv(w) && OnLine(w, c)
    ensures i < |w.s.tasks| && StandsIn(w, c, i)
    ensures !Switching(w, c) ==> w.s.cpus[c].current == Some(i)
  {
    assert CpuOk(w, c) && StandOk(w, c);
    if Switching(w, c) {
      i :| 0 <= i < |w.s.tasks| && Left(w, c, i);
    } else {
      i := Me(w.s, c);
      assert TaskOk(w, i);
    }
  }

  /**
    In every reachable state, with the lock free or held: no two CPUs stand on the
    same stack, no CPU stands on a reaped task's stack, and `on_cpu` and the
    per-CPU `current` are inverse to each other.
   */
  lemma StackSafety(ls: seq<Label>, w: World)
    requires Run(Init(), ls, w)
    ensures Sized(w)
    ensures forall c, d :: 0 <= c < d < MAX_CPUS && OnLine(w, c) && OnLine(w, d) ==> w.stand[c] != w.stand[d]
    ensures forall c, i :: 0 <= c < MAX_CPUS && OnLine(w, c) && 0 <= i < |w.s.tasks| && w.s.tasks[i].reaped ==>
      w.stand[c] != w.s.tasks[i].id
    ensures forall c, i :: 0 <= c < MAX_CPUS && 0 <= i < |w.s.tasks| ==>
      (w.s.tasks[i].onCpu == Some(c) <==> w.s.cpus[c].current == Some(i))
    ensures w.lock == Unlocked ==> forall c :: 0 <= c < MAX_CPUS && OnLine(w, c) ==>
      HasCurrent(w.s, c) && w.stand[c] == w.s.tasks[Me(w.s, c)].id
  {
    CoreInit();
    CoreRun(Init(), ls, w);
    forall c, d | 0 <= c < d < MAX_CPUS && OnLine(w, c) && OnLine(w, d) ensures w.stand[c] != w.stand[d] {
      var i := StandSlot(w, c);
      var j := StandSlot(w, d);
      assert CpuOk(w, c) && CpuOk(w, d);
    }
    forall c, i | 0 <= c < MAX_CPUS && OnLine(w, c) && 0 <= i < |w.s.tasks| && w.s.tasks[i].reaped
      ensures w.stand[c] != w.s.tasks[i].id
    {
      var j := StandSlot(w, c);
    }
    forall c, i | 0 <= c < MAX_CPUS && 0 <= i < |w.s.tasks|
      ensures w.s.tasks[i].onCpu == Some(c) <==> w.s.cpus[c].current == Some(i)
    {
      assert CpuOk(w, c) && TaskOk(w, i);
    }
    forall c | 0 <= c < MAX_CPUS && OnLine(w, c) && w.lock == Unlocked
      ensures HasCurrent(w.s, c) && w.stand[c] == w.s.tasks[Me(w.s, c)].id
    {
      assert CpuOk(w, c) && StandOk(w, c);
    }
  }

  /**
    Task `id` is dead and its resources are released: no slot holds it, or only a reaped one, and
    it will not be issued again.
   */
  ghost predicate Gone(w: World, id: nat) {
    id < w.nextId && id !in w.limbo && forall i :: 0 <= i < |w.s.tasks| && w.s.tasks[i].id == id ==> w.s.tasks[i].reaped
  }

  lemma GoneKept(w: World, w': World, id: nat)
    requires Kept(w, w') && Gone(w, id)
    ensures Gone(w', id)
  {
    forall i | 0 <= i < |w'.s.tasks| && w'.s.tasks[i].id == id
      ensures w'.s.tasks[i].reaped
    {
      assert KeptSlot(w, w', i);
    }
  }

  lemma GoneSwitched(w: World, w': World, cpu: nat, sp: Context, now: nat, next: nat, id: nat)
    requires Switched(w, w', cpu, sp, now, next) && Gone(w, id)
    ensures Gone(w', id)
  {}

  lemma GoneStep(w: World, l: Label, id: nat)
    requires CoreInv(w) && Enabled(w, l) && Gone(w, id)
    ensures Gone(Next(w, l), id)
  {
    if l.Tick? {
      if OnLine(w, l.cpu) {
        var sp, now, next := TickSwitches(w, l.cpu, l.at, l.timer);
        GoneSwitched(w, Next(w, l), l.cpu, sp, now, next, id);
      }
    } else if ByTask(l) {
      ActorKept(w, l);
      GoneKept(w, Next(w, l), id);
    }
  }

  /** Once the reaper has released a task, no CPU ever stands on its stack again, whatever happens later. */
  lemma {:induction false} ReapedForever(w: World, ls: seq<Label>, w': World, id: nat)
    requires CoreInv(w) && Run(w, ls, w') && Gone(w, id) && id > 0
    ensures Sized(w') && forall c :: 0 <= c < MAX_CPUS ==> w'.stand[c] != id
    decreases |ls|
  {
    if ls == [] {
      forall c | 0 <= c < MAX_CPUS ensures w.stand[c] != id {
        assert CpuOk(w, c) && StandOk(w, c);
        if OnLine(w, c) { var i := StandSlot(w, c); }
      }
    } else {
      CoreStep(w, ls[0]);
      GoneStep(w, ls[0], id);
      ReapedForever(Next(w, ls[0]), ls[1..], w', id);
    }
  }

  /** The slot a new task replaces is no CPU's current or idle slot, and its old task is gone. */
  lemma SlotReuse(w: World, id: nat, priority: nat, at: nat)
    requires CoreInv(w) && Enabled(w, Add(id, priority, at)) && ReusableFrom(w.s.tasks, 0) < |w.s.tasks|
    ensures var k := ReusableFrom(w.s.tasks, 0);
      && Gone(w, w.s.tasks[k].id)
      && (forall c :: 0 <= c < MAX_CPUS && OnLine(w, c) ==> w.s.cpus[c].current != Some(k) && w.s.cpus[c].idle != k)
      && (forall i :: 0 <= i < |w.s.tasks| && i != k ==> Next(w, Add(id, priority, at)).s.tasks[i] == w.s.tasks[i])
  {
    var k := ReusableFrom(w.s.tasks, 0);
    assert TaskOk(w, k);
    forall c | 0 <= c < MAX_CPUS && OnLine(w, c) ensures w.s.cpus[c].current != Some(k) && w.s.cpus[c].idle != k {
      assert CpuOk(w, c);
    }
  }

  /** A task is resumed with exactly the context it was last switched out with (or created with). */
  lemma ResumesWhereItLeft(w: World, cpu: nat, at: nat, timer: bool)
    requires CoreInv(w) && Enabled(w, Tick(cpu, at, timer)) && OnLine(w, cpu)
    ensures var w' := TickStep(w, cpu, at, timer);
      HasCurrent(w'.s, cpu) && Me(w'.s, cpu) < |w'.aux| && w'.lock == Held(cpu, w'.aux[Me(w'.s, cpu)].saved, false)
  {
    var sp, now, next := TickSwitches(w, cpu, at, timer);
    assert TaskOk(w, next) && CpuOk(w, cpu);
  }
}

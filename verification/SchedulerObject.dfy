/** The scheduler as the kernel keeps it: one object updated in place under its lock. */
module SchedulerObject {
  import opened Base
  import opened SchedulerModel
  import M = SchedulerModel

  class Scheduler {
    var tasks: seq<Task>
    var cpus: seq<Cpu>
    var cursor: nat
    var jiffies: nat

    ghost function View(): (s: Sched)
      reads this
    { Sched(tasks, cpus, cursor, jiffies) }

    constructor ()
      ensures View() == Sched([], seq(MAX_CPUS, _ => Cpu(false, 0, None, 0)), 0, 0)
    {
      tasks, cpus, cursor, jiffies := [], seq(MAX_CPUS, _ => Cpu(false, 0, None, 0)), 0, 0;
    }

    method RegisterCpu(cpu: nat, hwId: nat, id: nat)
      requires cpu < |cpus|
      modifies this
      ensures View() == M.RegisterCpu(old(View()), cpu, hwId, id)
    {
      tasks := tasks + [IdleTask(id, cpu)];
      var idx := |tasks| - 1;
      cpus := cpus[cpu := Cpu(true, hwId, Some(idx), idx)];
    }

    method AddTask(t: Task)
      modifies this
      ensures View() == M.AddTask(old(View()), t)
    {
      var i := 0;
      while i < |tasks| && !(tasks[i].state == Exited && tasks[i].reaped)
        invariant 0 <= i <= |tasks|
        invariant ReusableFrom(tasks, 0) == ReusableFrom(tasks, i)
      {
        i := i + 1;
      }
      if i < |tasks| { tasks := tasks[i := t]; } else { tasks := tasks + [t]; }
    }

    /** Marks the slots handed to the reaper; `out` lists them, at most `cap`. */
    method CollectExited(cap: nat) returns (out: seq<nat>)
      modifies this
      ensures View() == M.CollectExited(old(View()), cap)
      ensures |out| <= cap
      ensures forall i :: i in out <==> 0 <= i < |old(tasks)| && Reapable(old(tasks)[i]) && tasks[i].reaped
    {
      out := [];
      var i := 0;
      ghost var before := tasks;
      while i < |tasks|
        invariant 0 <= i <= |tasks| == |before|
        invariant |out| == ReapableCount(before, i) <= cap
        invariant cpus == old(cpus) && cursor == old(cursor) && jiffies == old(jiffies)
        invariant forall j :: j in out <==> 0 <= j < i && Reapable(before[j])
        invariant forall j :: 0 <= j < i ==> tasks[j] == Collected(before, cap, j)
        invariant forall j :: 0 <= j < i && Reapable(before[j]) ==> tasks[j].reaped
        invariant forall j :: i <= j < |tasks| ==> tasks[j] == before[j]
      {
        if tasks[i].state == Exited && !tasks[i].reaped && tasks[i].onCpu.None? {
          if |out| == cap {
            CountMonotone(before, i);
            break;
          }
          tasks := tasks[i := tasks[i].(reaped := true)];
          out := out + [i];
        }
        i := i + 1;
      }
      assert forall j :: 0 <= j < |before| ==> tasks[j] == Collected(before, cap, j);
    }

    method PickNext(cpu: nat) returns (next: nat)
      requires |tasks| > 0 && cpu < |cpus|
      modifies this`cursor
      ensures (next, View()) == M.PickNext(old(View()), cpu)
    {
      var n := |tasks|;
      var offset := 1;
      while offset <= n
        invariant 1 <= offset <= n + 1
        invariant Scan(tasks, cursor, cpu, 1) == Scan(tasks, cursor, cpu, offset)
        invariant cursor == old(cursor)
      {
        var idx := (cursor + offset) % n;
        if Eligible(tasks[idx], cpu) {
          cursor := idx;
          return idx;
        }
        offset := offset + 1;
      }
      next := cpus[cpu].idle;
    }

    /** Readies the sleepers whose deadline has passed. */
    method WakeSleepers()
      modifies this`tasks
      ensures tasks == Wake(old(tasks), jiffies)
    {
      ghost var before := tasks;
      for i := 0 to |tasks|
        invariant |tasks| == |before|
        invariant forall j :: 0 <= j < i ==> tasks[j] == Awake(before[j], jiffies)
        invariant forall j :: i <= j < |tasks| ==> tasks[j] == before[j]
      {
        if tasks[i].state == Sleeping && tasks[i].wakeTick <= jiffies {
          tasks := tasks[i := tasks[i].(state := Ready)];
        }
      }
      assert tasks == Wake(before, jiffies);
    }

    method OnTick(cpu: nat, sp: Context, timer: bool) returns (to: Context)
      requires Shape(View()) && cpu < |cpus|
      modifies this
      ensures (View(), to) == M.OnTick(old(View()), cpu, sp, timer)
    {
      if !cpus[cpu].registered || tasks == [] {
        return sp;
      }
      ghost var before := View();
      if timer && cpu == 0 { jiffies := jiffies + 1; }
      WakeSleepers();
      assert CpuShape(before, before.cpus[cpu]);
      var cur := cpus[cpu].current.value;
      tasks := tasks[cur := tasks[cur].(context := sp, onCpu := None)];
      if tasks[cur].state == Running {
        tasks := tasks[cur := tasks[cur].(state := Ready)];
      }
      assert View() == SwitchOut(before, cpu, sp, timer);
      var next := PickNext(cpu);
      tasks := tasks[next := tasks[next].(state := Running, onCpu := Some(cpu))];
      cpus := cpus[cpu := cpus[cpu].(current := Some(next))];
      to := tasks[next].context;
    }

    method FindLive(id: nat) returns (k: nat)
      ensures k == M.FindLive(tasks, id)
    {
      k := 0;
      while k < |tasks| && !(tasks[k].id == id && tasks[k].state != Exited)
        invariant 0 <= k <= |tasks|
        invariant M.FindLive(tasks, id) == FindLiveFrom(tasks, id, k)
      {
        k := k + 1;
      }
    }

    /** An online CPU other than `exclude` that is running its idle task, if there is one. */
    method FindIdleCpu(exclude: nat) returns (r: Option<nat>)
      ensures r == IdleCpuFrom(cpus, exclude, 0)
    {
      var c := 0;
      while c < |cpus|
        invariant 0 <= c <= |cpus|
        invariant IdleCpuFrom(cpus, exclude, 0) == IdleCpuFrom(cpus, exclude, c)
      {
        if cpus[c].registered && c != exclude && cpus[c].current == Some(cpus[c].idle) {
          return Some(cpus[c].hwId);
        }
        c := c + 1;
      }
      r := None;
    }

    method MakeReady(idx: nat, from: TaskState, cpu: nat) returns (kick: Option<nat>)
      requires idx < |tasks|
      modifies this`tasks
      ensures tasks == old(tasks)[idx := Readied(old(tasks)[idx], from)]
      ensures kick == Kick(old(View()), old(tasks)[idx], from, cpu)
    {
      if tasks[idx].state == from {
        tasks := tasks[idx := tasks[idx].(state := Ready)];
        kick := FindIdleCpu(cpu);
      } else {
        kick := None;
      }
    }

    method PostRequest(cpu: nat, receiver: nat, msg: Rqb) returns (r: Outcome<Option<nat>>)
      requires HasCurrent(View(), cpu)
      modifies this
      ensures (View(), r) == M.PostRequest(old(View()), cpu, receiver, msg)
    {
      var me := cpus[cpu].current.value;
      var myId := tasks[me].id;
      if receiver == myId { return Err(InvalidParam); }
      var ri := FindLive(receiver);
      if ri == |tasks| { return Err(NotFound); }
      if |tasks[ri].inbox| >= INBOX_CAPACITY { return Err(Busy); }
      var m := msg.(sender := myId, receiver := receiver);
      tasks := tasks[ri := tasks[ri].(inbox := tasks[ri].inbox + [m])];
      tasks := tasks[me := tasks[me].(state := WaitingReply, waitFor := receiver, reply := None)];
      var kick := MakeReady(ri, WaitingRqb, cpu);
      assert tasks == M.PostRequest(old(View()), cpu, receiver, msg).0.tasks;
      r := Ok(kick);
    }

    method TakeRequest(cpu: nat, block: bool) returns (m: Option<Rqb>)
      requires HasCurrent(View(), cpu)
      modifies this
      ensures (View(), m) == M.TakeRequest(old(View()), cpu, block)
    {
      var me := cpus[cpu].current.value;
      if tasks[me].inbox != [] {
        m := Some(tasks[me].inbox[0]);
        tasks := tasks[me := tasks[me].(inbox := tasks[me].inbox[1..])];
      } else {
        if block { tasks := tasks[me := tasks[me].(state := WaitingRqb)]; }
        m := None;
      }
    }

    method PostReply(cpu: nat, sender: nat, msg: Rqb) returns (r: Outcome<Option<nat>>)
      requires HasCurrent(View(), cpu)
      modifies this
      ensures (View(), r) == M.PostReply(old(View()), cpu, sender, msg)
    {
      var myId := tasks[cpus[cpu].current.value].id;
      var si := FindLive(sender);
      if si == |tasks| { return Err(NotFound); }
      if tasks[si].state != WaitingReply || tasks[si].waitFor != myId || tasks[si].reply.Some? {
        return Err(InvalidParam);
      }
      tasks := tasks[si := tasks[si].(reply := Some(msg.(sender := myId, receiver := sender)))];
      var kick := MakeReady(si, WaitingReply, cpu);
      assert tasks == M.PostReply(old(View()), cpu, sender, msg).0.tasks;
      r := Ok(kick);
    }

    /** The section of send_rqb that runs after each yield. */
    method TakeReply(cpu: nat) returns (r: Option<Rqb>)
      requires HasCurrent(View(), cpu)
      modifies this
      ensures (View(), r) == M.TakeReply(old(View()), cpu)
      ensures r == old(tasks[Me(View(), cpu)].reply)
    {
      var me := cpus[cpu].current.value;
      r := tasks[me].reply;
      tasks := tasks[me := tasks[me].(reply := None)];
      if r.None? { tasks := tasks[me := tasks[me].(state := WaitingReply)]; }
      assert tasks == M.TakeReply(old(View()), cpu).0.tasks;
    }

    /** `kick` is an idle CPU if anybody was waiting for the exiting task. */
    method MarkExited(cpu: nat) returns (kick: Option<nat>)
      requires HasCurrent(View(), cpu)
      modifies this
      ensures View() == M.MarkExited(old(View()), cpu)
      ensures kick ==
        if exists i ::
          0 <= i < |old(tasks)| && i != Me(old(View()), cpu)
          && AwaitsReply(old(tasks)[i], old(tasks)[Me(old(View()), cpu)].id)
        then IdleCpuFrom(cpus, cpu, 0) else None
    {
      var me := cpus[cpu].current.value;
      var myId := tasks[me].id;
      tasks := tasks[me := tasks[me].(state := Exited, inbox := [])];
      ghost var dead := tasks;
      kick := None;
      var i := 0;
      ghost var woken := false;
      while i < |tasks|
        invariant 0 <= i <= |tasks| == |dead|
        invariant cpus == old(cpus) && cursor == old(cursor) && jiffies == old(jiffies)
        invariant forall j :: 0 <= j < i ==> tasks[j] == Released(dead[j], myId)
        invariant forall j :: i <= j < |tasks| ==> tasks[j] == dead[j]
        invariant woken <==> exists j :: 0 <= j < i && AwaitsReply(dead[j], myId)
        invariant kick == if woken then IdleCpuFrom(cpus, cpu, 0) else None
      {
        if tasks[i].state == WaitingReply && tasks[i].waitFor == myId && tasks[i].reply.None? {
          tasks := tasks[i := tasks[i].(reply := Some(AbortNotice(myId, tasks[i].id)))];
          var k := MakeReady(i, WaitingReply, cpu);
          kick := if kick.Some? then kick else k;
          woken := true;
        }
        i := i + 1;
      }
      assert tasks == M.MarkExited(old(View()), cpu).tasks;
      assert forall j :: 0 <= j < |dead| ==>
        (AwaitsReply(dead[j], myId) <==> j != me && AwaitsReply(old(tasks)[j], myId));
    }

    method SleepUntil(cpu: nat, until: nat)
      requires HasCurrent(View(), cpu)
      modifies this
      ensures View() == M.SleepUntil(old(View()), cpu, until)
    {
      var me := cpus[cpu].current.value;
      tasks := tasks[me := tasks[me].(wakeTick := until)];
      tasks := tasks[me := tasks[me].(state := Sleeping)];
    }
  }

  lemma {:induction false} CountMonotone(ts: seq<Task>, i: nat)
    requires i <= |ts|
    ensures forall j :: i <= j <= |ts| ==> ReapableCount(ts, i) <= ReapableCount(ts, j)
  {
    forall j | i <= j <= |ts| ensures ReapableCount(ts, i) <= ReapableCount(ts, j) { CountUpTo(ts, i, j); }
  }

  lemma {:induction false} CountUpTo(ts: seq<Task>, i: nat, j: nat)
    requires i <= j <= |ts|
    ensures ReapableCount(ts, i) <= ReapableCount(ts, j)
    decreases j
  {
    if i < j { CountUpTo(ts, i, j - 1); }
  }
}

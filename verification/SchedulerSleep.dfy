/** Time and sleep: the clock counts the boot CPU's timer ticks, and nobody is woken early or passed over. */
module SchedulerSleep {
  import opened SchedulerModel
  import opened SchedulerRuns

  /** A timer interrupt of CPU 0, once that CPU schedules. */
  ghost predicate CountsTime(w: World, l: Label) { l.Tick? && l.cpu == 0 && l.timer && OnLine(w, 0) }

  /** A switch, on any CPU that schedules. */
  ghost predicate Switches(w: World, l: Label) { l.Tick? && OnLine(w, l.cpu) }

  lemma ClockStep(w: World, l: Label)
    requires CoreInv(w) && Enabled(w, l)
    ensures Next(w, l).s.jiffies == w.s.jiffies + if CountsTime(w, l) then 1 else 0
  {
    if l.Tick? { assert CpuOk(w, l.cpu); }
  }

  ghost function TimeIn(w: World, ls: seq<Label>): (n: nat)
    decreases |ls|
  {
    if ls == [] || !Enabled(w, ls[0]) then 0
    else (if CountsTime(w, ls[0]) then 1 else 0) + TimeIn(Next(w, ls[0]), ls[1..])
  }

  /** The clock is the number of timer ticks of CPU 0. */
  lemma {:induction false} ClockCounts(w: World, ls: seq<Label>, w': World)
    requires CoreInv(w) && Run(w, ls, w')
    ensures w'.s.jiffies == w.s.jiffies + TimeIn(w, ls)
    decreases |ls|
  {
    if ls != [] {
      CoreStep(w, ls[0]);
      ClockStep(w, ls[0]);
      ClockCounts(Next(w, ls[0]), ls[1..], w');
    }
  }

  lemma TickWakes(s: Sched, cpu: nat, sp: Context, timer: bool, i: nat)
    requires Shape(s) && cpu < |s.cpus| && s.cpus[cpu].registered && i < |s.tasks|
      && s.cpus[cpu].idle < |s.tasks| && s.tasks[s.cpus[cpu].idle].state != Sleeping
    ensures var s' := OnTick(s, cpu, sp, timer).0;
      && i < |s'.tasks| && s'.tasks[i].wakeTick == s.tasks[i].wakeTick
      && (s'.tasks[i].state == Sleeping <==> s.tasks[i].state == Sleeping && s.tasks[i].wakeTick > s'.jiffies)
      && (s.tasks[i].state == Sleeping ==> s'.tasks[i].state in {Sleeping, Ready, Running})
      && (s'.tasks[i].state == Sleeping && s.tasks[i].onCpu.None? ==> s'.tasks[i].onCpu.None?)
  {
    var now, next := OnTickEffect(s, cpu, sp, timer);
    var out := SwitchOut(s, cpu, sp, timer);
    assert PickNext(out, cpu).1.jiffies == now;
  }

  /** A switch wakes exactly the sleepers whose time has come, and puts nobody to sleep. */
  lemma SwitchWakes(w: World, cpu: nat, at: nat, timer: bool, i: nat)
    requires CoreInv(w) && Enabled(w, Tick(cpu, at, timer)) && OnLine(w, cpu) && i < |w.s.tasks|
    ensures var w' := Next(w, Tick(cpu, at, timer));
      && i < |w'.s.tasks|
      && (w'.s.tasks[i].state == Sleeping <==>
        w.s.tasks[i].state == Sleeping && w.s.tasks[i].wakeTick > w'.s.jiffies)
      && w'.s.tasks[i].wakeTick == w.s.tasks[i].wakeTick
      && (w.s.tasks[i].state == Sleeping ==> w'.s.tasks[i].state in {Sleeping, Ready, Running})
      && (w'.s.tasks[i].state == Sleeping && w.s.tasks[i].onCpu.None? ==> w'.s.tasks[i].onCpu.None?)
  {
    assert CpuOk(w, cpu);
    TickWakes(w.s, cpu, Context(w.stand[cpu], at), timer, i);
  }

  /** Going to sleep changes nothing but the sleeper's state and deadline. */
  lemma FallsAsleep(w: World, cpu: nat, until: nat)
    requires CoreInv(w) && Enabled(w, Sleep(cpu, until))
    ensures var w', me := Next(w, Sleep(cpu, until)), Me(w.s, cpu);
      && w'.s.tasks[me].state == Sleeping && w'.s.tasks[me].wakeTick == until
      && w' == w.(s := w.s.(tasks := w.s.tasks[me := w'.s.tasks[me]]))
      && w'.s.tasks[me] == w.s.tasks[me].(state := Sleeping, wakeTick := until)
  {}

  /** Slot `i` is asleep until `until`, and off every CPU. */
  ghost predicate Asleep(w: World, i: nat, until: nat) {
    i < |w.s.tasks| && w.s.tasks[i].state == Sleeping && w.s.tasks[i].onCpu.None? && w.s.tasks[i].wakeTick == until
  }

  /** What a running task does wakes no sleeper. */
  lemma AsleepOthers(w: World, l: Label, i: nat, until: nat)
    requires CoreInv(w) && Enabled(w, l) && ByTask(l) && Asleep(w, i, until)
    ensures Asleep(Next(w, l), i, until)
  {
    assert CpuOk(w, l.cpu);
  }

  lemma AsleepStep(w: World, l: Label, i: nat, until: nat)
    requires CoreInv(w) && Enabled(w, l) && Asleep(w, i, until)
    ensures if Switches(w, l) && until <= Next(w, l).s.jiffies then Next(w, l).s.tasks[i].state in {Ready, Running}
      else Asleep(Next(w, l), i, until)
  {
    if ByTask(l) {
      AsleepOthers(w, l, i, until);
    } else if l.Tick? {
      assert CpuOk(w, l.cpu);
      if OnLine(w, l.cpu) { SwitchWakes(w, l.cpu, l.at, l.timer, i); }
    }
  }

  /** Some switch of the run happens at or after `until`. */
  ghost predicate SwitchAfter(w: World, ls: seq<Label>, until: nat)
    decreases |ls|
  {
    ls != [] && Enabled(w, ls[0])
      && ((Switches(w, ls[0]) && until <= Next(w, ls[0]).s.jiffies) || SwitchAfter(Next(w, ls[0]), ls[1..], until))
  }

  /** In any run a sleeper sleeps on until the first switch at or after its deadline. */
  lemma {:induction false} SleepsOn(w: World, ls: seq<Label>, w': World, i: nat, until: nat)
    requires CoreInv(w) && Run(w, ls, w') && Asleep(w, i, until) && !SwitchAfter(w, ls, until)
    ensures Asleep(w', i, until)
    decreases |ls|
  {
    if ls != [] {
      CoreStep(w, ls[0]);
      AsleepStep(w, ls[0], i, until);
      SleepsOn(Next(w, ls[0]), ls[1..], w', i, until);
    }
  }

  /** So nobody is woken before its deadline, whatever else happens. */
  lemma {:induction false} NeverEarly(w: World, ls: seq<Label>, w': World, i: nat, until: nat)
    requires CoreInv(w) && Run(w, ls, w') && Asleep(w, i, until) && w'.s.jiffies < until
    ensures Asleep(w', i, until)
  {
    NoneAfter(w, ls, w', until);
    SleepsOn(w, ls, w', i, until);
  }

  lemma {:induction false} NoneAfter(w: World, ls: seq<Label>, w': World, until: nat)
    requires CoreInv(w) && Run(w, ls, w') && w'.s.jiffies < until
    ensures !SwitchAfter(w, ls, until)
    decreases |ls|
  {
    if ls != [] {
      CoreStep(w, ls[0]);
      NoneAfter(Next(w, ls[0]), ls[1..], w', until);
      ClockCounts(Next(w, ls[0]), ls[1..], w');
    }
  }
}

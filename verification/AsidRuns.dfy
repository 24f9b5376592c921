/**
  The ASID pool together with what the hardware holds: on every CPU the loaded
  translation root with its tag, and a TLB whose entries carry a tag and belong
  to one incarnation of an address space. A root may be freed and used again for
  a new space, which is then a new incarnation.

  Switching a CPU takes three steps with the pool lock held, as in
  switch_address_space (src/arch/arm64/mmu.rs): activate, the broadcast flush if
  asked for, and the load of the new root. The other CPUs go on running, and any
  CPU may cache a translation of its loaded space at any moment.
 */
module AsidRuns {
  import opened Base
  import opened AsidPool

  datatype Entry = Entry(tag: nat, incarnation: nat)

  datatype Loaded = Loaded(root: nat, tag: nat, incarnation: nat)

  /** The pool lock: free, or held by a CPU that has activated `root` and must still flush or load. */
  datatype Hold = Open | Switching(cpu: nat, root: nat, tag: Option<nat>, flush: bool)

  /** `born[k]` is the incarnation registered in slot k. */
  datatype World = World(pool: Pool, born: seq<nat>, births: nat, loaded: seq<Loaded>, tlb: seq<set<Entry>>, hold: Hold)

  datatype Label =
    | Enter(root: nat)
    | Begin(cpu: nat, root: nat)
    | Flush
    | Load
    | Cache(cpu: nat)
    | Evict(cpu: nat, gone: set<Entry>)
    | Leave(root: nat)

  function Init(bits: nat, spaces: nat, cpus: nat): (w: World)
    requires bits > 0
  {
    World(NewPool(bits, spaces, cpus), seq(spaces, _ => 0), 1, seq(cpus, _ => Loaded(0, 0, 0)), seq(cpus, _ => {}),
      Open)
  }

  ghost predicate Enabled(w: World, l: Label) {
    match l
    case Enter(root) => w.hold == Open && root != 0 && !Known(w.pool, root) && |w.born| == |w.pool.spaces|
    case Begin(cpu, root) => w.hold == Open && cpu < |w.pool.active| && (root == 0 || Known(w.pool, root))
      && Activate(w.pool, cpu, root).1 != Halted
    case Flush => w.hold.Switching? && w.hold.flush
    case Load => w.hold.Switching? && !w.hold.flush && w.hold.tag.Some? && w.hold.cpu < |w.loaded|
      && (w.hold.root == 0 || (Known(w.pool, w.hold.root) && |w.born| == |w.pool.spaces|))
    case Cache(cpu) => cpu < |w.loaded| && cpu < |w.tlb| && w.loaded[cpu].root != 0
    case Evict(cpu, _) => cpu < |w.tlb|
    case Leave(root) => w.hold == Open && root != 0 && Known(w.pool, root) && forall c :: 0 <= c < |w.pool.active| ==>
      w.pool.active[c].root != root
  }

  ghost function Next(w: World, l: Label): (r: World)
    requires Enabled(w, l)
  {
    match l
    case Enter(root) =>
      var (p, ok) := Register(w.pool, root);
      if ok then w.(pool := p, born := w.born[Slot(w.pool.spaces, 0) := w.births], births := w.births + 1) else w
    case Begin(cpu, root) =>
      var (p, o) := Activate(w.pool, cpu, root);
      w.(pool := p, hold := Switching(cpu, root, if o.Tag? then Some(o.tag) else None, o.flush))
    case Flush => w.(tlb := seq(|w.tlb|, _ => {}), hold := w.hold.(flush := false))
    case Load =>
      var h := w.hold;
      w.(loaded := w.loaded[h.cpu := Loaded(h.root, h.tag.value, if h.root == 0 then 0
        else w.born[Slot(w.pool.spaces, h.root)])], hold := Open)
    case Cache(cpu) => w.(tlb := w.tlb[cpu := w.tlb[cpu] + {Entry(w.loaded[cpu].tag, w.loaded[cpu].incarnation)}])
    case Evict(cpu, gone) => w.(tlb := w.tlb[cpu := w.tlb[cpu] - gone])
    case Leave(root) => w.(pool := Release(w.pool, root))
  }

  ghost predicate Run(w: World, ls: seq<Label>, w': World)
    decreases |ls|
  {
    if ls == [] then w == w'
    else Enabled(w, ls[0]) && Run(Next(w, ls[0]), ls[1..], w')
  }

  // ---------------------------------------------------------------- invariant

  ghost predicate Sized(w: World) {
    |w.born| == |w.pool.spaces| && |w.loaded| == |w.pool.active| && |w.tlb| == |w.pool.active|
  }

  /** A loaded user root is registered, in the current generation, under the loaded tag and incarnation. */
  ghost predicate LoadedOk(w: World, c: nat)
    requires Sized(w) && c < |w.loaded|
  {
    var l := w.loaded[c];
    if l.root == 0 then l.tag == 0
    else
      && Known(w.pool, l.root)
      && var k := Slot(w.pool.spaces, l.root);
         w.pool.spaces[k] == Space(l.root, l.tag, w.pool.generation) && w.born[k] == l.incarnation
  }

  /** What CPU `c` sees: entries under the tag it runs with belong to the space it runs. */
  ghost predicate Sees(w: World, c: nat)
    requires c < |w.loaded| && c < |w.tlb|
  {
    forall e :: e in w.tlb[c] ==>
      e.tag != 0 && e.tag != BOOT_TAG && (e.tag == w.loaded[c].tag ==> e.incarnation == w.loaded[c].incarnation)
  }

  /**
    An entry carries a used tag, and if that is a tag of the current generation, it belongs to the
    space that has it.
   */
  ghost predicate CleanEntry(w: World, e: Entry)
    requires Sized(w)
  {
    && e.tag in w.pool.used
    && forall k ::
      0 <= k < |w.pool.spaces| && w.pool.spaces[k].generation == w.pool.generation
      && w.pool.spaces[k].tag == e.tag ==>
        w.born[k] == e.incarnation
  }

  ghost predicate Clean(w: World, c: nat)
    requires Sized(w) && c < |w.tlb|
  {
    forall e :: e in w.tlb[c] ==> CleanEntry(w, e)
  }

  ghost predicate Busy(w: World, c: nat) { w.hold.Switching? && w.hold.cpu == c }

  ghost predicate Flushing(w: World) { w.hold.Switching? && w.hold.flush }

  ghost predicate HoldOk(w: World)
    requires Sized(w)
  {
    w.hold.Switching? ==>
      && w.hold.cpu < |w.pool.active|
      && (w.hold.tag.Some? ==> w.pool.active[w.hold.cpu] == Active(w.hold.root, w.hold.tag.value))
  }

  ghost predicate CpuOk(w: World, c: nat)
    requires Sized(w) && c < |w.loaded|
  {
    && LoadedOk(w, c) && Sees(w, c)
    && (!Busy(w, c) ==> w.pool.active[c] == Active(w.loaded[c].root, w.loaded[c].tag))
    && (!Flushing(w) ==> Clean(w, c))
  }

  ghost predicate Inv(w: World) {
    Sized(w) && AsidPool.Inv(w.pool) && HoldOk(w) && forall c :: 0 <= c < |w.loaded| ==> CpuOk(w, c)
  }

  lemma InitInv(bits: nat, spaces: nat, cpus: nat)
    requires bits > 0
    ensures Inv(Init(bits, spaces, cpus))
  {
    NewPoolInv(bits, spaces, cpus);
  }

  /** An activation moves no root, and a space loaded anywhere before it is current afterwards under the same tag. */
  lemma ActivateKeeps(p: Pool, cpu: nat, root: nat, c: nat)
    requires AsidPool.Inv(p) && cpu < |p.active| && (root == 0 || Known(p, root)) && c < |p.active|
      && p.active[c].root != 0
    ensures var p', k := Activate(p, cpu, root).0, Slot(p.spaces, p.active[c].root);
      |p'.spaces| == |p.spaces| && Slot(p'.spaces, p.active[c].root) == k < |p.spaces|
        && p'.spaces[k] == Space(p.active[c].root, p.active[c].tag, p'.generation)
  {
    assert ActiveOk(p, p.active[c]);
    var p', k := Activate(p, cpu, root).0, Slot(p.spaces, root);
    if root != 0 && p.spaces[k].generation != p.generation {
      var (p1, tag) := Allocate(p, p.limit);
      AllocateSame(p, p.limit);
      if tag.None? && p.generation < GENERATION_LIMIT {
        AllocateInv(p);
        RolloverActive(p1, c);
        RolloverSame(p1);
        AllocateSame(Rollover(p1), p.limit);
      }
      ActivateInv(p, cpu, root);
      SlotUnique(p'.spaces, Slot(p.spaces, p.active[c].root));
    }
  }

  /** Without a flush, the only new tag is one that was unused. */
  lemma ActivateQuiet(p: Pool, cpu: nat, root: nat)
    requires AsidPool.Inv(p) && cpu < |p.active| && (root == 0 || Known(p, root))
    requires var o := Activate(p, cpu, root).1; o.Tag? && !o.flush
    ensures var (p', o) := Activate(p, cpu, root);
      && p'.generation == p.generation && p.used <= p'.used && |p'.spaces| == |p.spaces|
      && p'.active == p.active[cpu := Active(root, o.tag)]
      && forall i :: 0 <= i < |p.spaces| ==> p'.spaces[i] == p.spaces[i] || p'.spaces[i].tag !in p.used
  {
    AllocateSpec(p, p.limit);
    AllocateSame(p, p.limit);
  }

  lemma ActivateActive(p: Pool, cpu: nat, root: nat)
    requires AsidPool.Inv(p) && cpu < |p.active| && (root == 0 || Known(p, root))
    ensures var (p', o) := Activate(p, cpu, root);
      && |p'.active| == |p.active| && |p'.spaces| == |p.spaces|
      && (o.Tag? ==> p'.active[cpu] == Active(root, o.tag))
      && forall c :: 0 <= c < |p.active| && c != cpu ==> p'.active[c] == p.active[c]
  {
    AllocateSame(p, p.limit);
    var p1 := Allocate(p, p.limit).0;
    RolloverSame(p1);
    AllocateSame(Rollover(p1), p.limit);
  }

  lemma BeginInv(w: World, cpu: nat, root: nat)
    requires Inv(w) && Enabled(w, Begin(cpu, root))
    ensures Inv(Next(w, Begin(cpu, root)))
  {
    var w' := Next(w, Begin(cpu, root));
    ActivateInv(w.pool, cpu, root);
    ActivateActive(w.pool, cpu, root);
    forall c | 0 <= c < |w'.loaded| ensures CpuOk(w', c) {
      assert CpuOk(w, c);
      if w.loaded[c].root != 0 { ActivateKeeps(w.pool, cpu, root, c); }
      if !Flushing(w') {
        ActivateQuiet(w.pool, cpu, root);
        forall e | e in w'.tlb[c] ensures CleanEntry(w', e) { assert CleanEntry(w, e); }
      }
    }
  }

  lemma LoadInv(w: World)
    requires Inv(w) && Enabled(w, Load)
    ensures Inv(Next(w, Load))
  {
    var w' := Next(w, Load);
    var h := w.hold;
    assert ActiveOk(w.pool, w.pool.active[h.cpu]);
    forall c | 0 <= c < |w'.loaded| ensures CpuOk(w', c) { assert CpuOk(w, c); }
  }

  lemma EnterInv(w: World, root: nat)
    requires Inv(w) && Enabled(w, Enter(root))
    ensures Inv(Next(w, Enter(root)))
  {
    var w', k := Next(w, Enter(root)), Slot(w.pool.spaces, 0);
    RegisterInv(w.pool, root);
    if Register(w.pool, root).1 {
      assert SpaceOk(w.pool, w.pool.spaces[k]);
      forall c | 0 <= c < |w'.loaded| ensures CpuOk(w', c) {
        assert CpuOk(w, c);
        if w.loaded[c].root != 0 { SlotUnique(w'.pool.spaces, Slot(w.pool.spaces, w.loaded[c].root)); }
      }
    }
  }

  lemma LeaveInv(w: World, root: nat)
    requires Inv(w) && Enabled(w, Leave(root))
    ensures Inv(Next(w, Leave(root)))
  {
    var w' := Next(w, Leave(root));
    ReleaseInv(w.pool, root);
    forall c | 0 <= c < |w'.loaded| ensures CpuOk(w', c) {
      assert CpuOk(w, c);
      if w.loaded[c].root != 0 { SlotUnique(w'.pool.spaces, Slot(w.pool.spaces, w.loaded[c].root)); }
    }
  }

  lemma CacheInv(w: World, cpu: nat)
    requires Inv(w) && Enabled(w, Cache(cpu))
    ensures Inv(Next(w, Cache(cpu)))
  {
    var w' := Next(w, Cache(cpu));
    assert CpuOk(w, cpu);
    var l := w.loaded[cpu];
    assert SpaceOk(w.pool, w.pool.spaces[Slot(w.pool.spaces, l.root)]);
    forall c | 0 <= c < |w'.loaded| ensures CpuOk(w', c) { assert CpuOk(w, c); }
  }

  lemma FlushEvictInv(w: World, l: Label)
    requires Inv(w) && (l.Flush? || l.Evict?) && Enabled(w, l)
    ensures Inv(Next(w, l))
  {
    var w' := Next(w, l);
    forall c | 0 <= c < |w'.loaded| ensures CpuOk(w', c) { assert CpuOk(w, c); }
  }

  lemma StepInv(w: World, l: Label)
    requires Inv(w) && Enabled(w, l)
    ensures Inv(Next(w, l))
  {
    match l
    case Enter(root) => EnterInv(w, root);
    case Begin(cpu, root) => BeginInv(w, cpu, root);
    case Flush => FlushEvictInv(w, l);
    case Load => LoadInv(w);
    case Cache(cpu) => CacheInv(w, cpu);
    case Evict(cpu, gone) => FlushEvictInv(w, l);
    case Leave(root) => LeaveInv(w, root);
  }

  lemma {:induction false} RunInv(w: World, ls: seq<Label>, w': World)
    requires Inv(w) && Run(w, ls, w')
    ensures Inv(w')
    decreases |ls|
  {
    if ls != [] {
      StepInv(w, ls[0]);
      RunInv(Next(w, ls[0]), ls[1..], w');
    }
  }

  /**
    In every reachable state, through rollovers and reuse of roots and even
    between a rollover and its flush: a CPU running with a tag finds under it only
    translations of the incarnation it runs; under the empty root it finds none;
    the root it runs on is still registered; and two spaces of the current
    generation never share a tag.
   */
  lemma Isolation(bits: nat, spaces: nat, cpus: nat, ls: seq<Label>, w: World)
    requires bits > 0 && Run(Init(bits, spaces, cpus), ls, w)
    ensures |w.tlb| == |w.loaded| && |w.born| == |w.pool.spaces|
    ensures forall c, e :: 0 <= c < |w.loaded| && e in w.tlb[c] && e.tag == w.loaded[c].tag ==>
      w.loaded[c].root != 0 && e.incarnation == w.loaded[c].incarnation
    ensures forall c :: 0 <= c < |w.loaded| && w.loaded[c].root != 0 ==>
      Known(w.pool, w.loaded[c].root) && w.born[Slot(w.pool.spaces, w.loaded[c].root)] == w.loaded[c].incarnation
        && Usable(w.pool, w.loaded[c].tag)
    ensures forall i, j ::
      0 <= i < j < |w.pool.spaces|
      && w.pool.spaces[i].generation == w.pool.spaces[j].generation == w.pool.generation ==>
        w.pool.spaces[i].tag != w.pool.spaces[j].tag
  {
    InitInv(bits, spaces, cpus);
    RunInv(Init(bits, spaces, cpus), ls, w);
    forall c | 0 <= c < |w.loaded|
      ensures Sees(w, c) && LoadedOk(w, c)
      ensures w.loaded[c].root != 0 ==> Usable(w.pool, w.loaded[c].tag)
    {
      assert CpuOk(w, c);
      if w.loaded[c].root != 0 { assert SpaceOk(w.pool, w.pool.spaces[Slot(w.pool.spaces, w.loaded[c].root)]); }
    }
  }
}

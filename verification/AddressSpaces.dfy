/**
  Address spaces made, filled and torn down (src/arch/amd64/memory.rs:139-214 and
  src/memory/user.rs). The random draws are parameters.
 */
module AddressSpaces {
  import opened Base
  import opened Frames
  import opened PageTables
  import opened SpaceWorld
  import opened TearDown

  const SLOTS: nat := 64

  datatype MapResult = Mapped | OutOfMemory | AlreadyMapped

  /** The tree position of page `v`'s table at `level`. */
  function Pre(v: nat, level: nat): (p: nat) { if level == 0 then v else Pre(v, level - 1) / ENTRIES }

  function KeyOf(v: nat, level: nat): (k: Key) { Key(level, Pre(v, level)) }

  predicate InWindow(v: nat) { Pre(v, 3) == SLOT }

  lemma KeyParent(v: nat, level: nat)
    ensures Parent(KeyOf(v, level)) == KeyOf(v, level + 1)
  {}

  /** Tables missing on the way to page `v`, at `level` and below. */
  function Missing(sp: Space, v: nat, level: nat): (n: nat) {
    if level == 0 then 0 else Missing(sp, v, level - 1) + if KeyOf(v, level) in sp then 0 else 1
  }

  lemma {:induction false} MissingBelow(sp: Space, v: nat, level: nat, k: Key, n: Node)
    requires k.level > level
    ensures Missing(sp[k := n], v, level) == Missing(sp, v, level)
  {
    if level > 0 { MissingBelow(sp, v, level - 1, k, n); }
  }

  /** Owners once a space is gone. */
  function Disowned(owner: seq<Owner>, root: nat): (r: seq<Owner>)
    ensures |r| == |owner| && forall f :: 0 <= f < |owner| ==>
      r[f] == if Belongs(owner, f, root) then Nobody else owner[f]
  {
    if owner == [] then [] else var n := |owner| - 1;
      Disowned(owner[..n], root) + [if owner[n] != Nobody && owner[n].root == root then Nobody else owner[n]]
  }

  lemma RootOwned(w: World, kernel: nat, r: nat)
    requires Held(w, kernel) && r in w.spaces
    ensures r < |w.owner| && w.owner[r] == Root(r)
  {
    assert Live(w, r, kernel);
  }

  lemma FreeIsNoRoot(w: World, kernel: nat, f: nat)
    requires Held(w, kernel) && f in w.free
    ensures f < |w.owner| && w.owner[f] == Nobody && f !in w.spaces && f != kernel && f != 0
  {
    assert FreeAt(w, f);
    if f in w.spaces { RootOwned(w, kernel, f); }
  }

  lemma NothingGone(w: World, kernel: nat, root: nat)
    requires Held(w, kernel)
    ensures Freed(w.mem, w.free, w.mem, w.free, w.owner, root, {})
  {
    forall f: nat | f in w.free ensures f < |w.owner| { assert FreeAt(w, f); }
    forall f: nat | f < |w.owner| ensures FreedAt(w.mem, w.free, w.mem, w.free, w.owner, root, {}, f) { }
  }

  lemma RootLeft(w: World, mem': seq<Frame>, free': set<nat>, kernel: nat, root: nat, gone: set<Key>)
    requires Held(w, kernel) && root in w.spaces && Freed(mem', free', w.mem, w.free, w.owner, root, gone)
    ensures root < |w.owner| == |mem'| && root !in free'
  {
    assert Live(w, root, kernel);
    assert FreedAt(mem', free', w.mem, w.free, w.owner, root, gone, root) && (root in w.free ==> FreeAt(w, root));
  }

  lemma AllGone(w: World, w': World, mem': seq<Frame>, free': set<nat>, kernel: nat, root: nat, gone: set<Key>)
    requires Held(w, kernel) && root in w.spaces && Freed(mem', free', w.mem, w.free, w.owner, root, gone)
      && gone == w.spaces[root].Keys && root < |mem'|
    requires w'.mem == mem'[root := Zero] && w'.free == free' + {root} && w'.owner == Disowned(w.owner, root)
    ensures forall f: nat :: f < |w.mem| ==> GoneAt(w, w', root, f)
  {
    assert Live(w, root, kernel);
    forall f: nat | f < |w.mem| ensures GoneAt(w, w', root, f) {
      assert FreedAt(mem', free', w.mem, w.free, w.owner, root, gone, f) && OwnerOk(w, f)
        && (f in w.free ==> FreeAt(w, f));
    }
  }

  /** The frame of the table above tree position `k`. */
  lemma AboveHeld(w: World, kernel: nat, root: nat, v: nat, level: nat)
    requires Held(w, kernel) && root in w.spaces && InWindow(v) && level <= 3
      && (level < 3 ==> KeyOf(v, level + 1) in w.spaces[root])
    ensures var t := Holder(root, w.spaces[root], KeyOf(v, level));
      t < |w.mem| && t !in w.free && !w.mem[t].Data? && WellSized(w.mem[t]) && Belongs(w.owner, t, root)
    ensures EntryOf(w.mem[Holder(root, w.spaces[root], KeyOf(v, level))], Index(KeyOf(v, level)))
      == Want(w.spaces[root], KeyOf(v, level)) && Index(KeyOf(v, level)) < ENTRIES
    ensures var t := Holder(root, w.spaces[root], KeyOf(v, level)); w.owner[t].Root? || w.owner[t].key.level > 0
  {
    assert Live(w, root, kernel);
    KeyParent(v, level);
    HolderOk(w.mem, w.owner, root, w.spaces[root], kernel, KeyOf(v, level));
    var t := Holder(root, w.spaces[root], KeyOf(v, level));
    assert t in w.free ==> FreeAt(w, t);
  }

  /** A table or page hung under its table: what the world, the pages and the pool see of it. */
  lemma HungStep(w: World, w1: World, w': World, kernel: nat, root: nat, v: nat, level: nat, n: Node)
    requires Held(w, kernel) && Held(w1, kernel) && n.frame in w.free && root in w.spaces && InWindow(v) && level <= 3
      && n.frame < |w.mem|
    requires w1.spaces == w.spaces && w1.owner == w.owner && w1.free == w.free - {n.frame} && |w1.mem| == |w.mem|
      && (forall f: nat :: f < |w.mem| && f != n.frame ==> w1.mem[f] == w.mem[f])
    requires Vacant(w1.spaces[root], KeyOf(v, level)) && Fresh(w1.mem, w1.owner, kernel, KeyOf(v, level), n)
    requires EntryWritten(w1.mem, w'.mem, Holder(root, w1.spaces[root], KeyOf(v, level)), Index(KeyOf(v, level)),
      EntryFor(n))
    requires w'.owner == w1.owner[n.frame := Part(root, KeyOf(v, level))]
      && w'.spaces == w1.spaces[root := w1.spaces[root][KeyOf(v, level) := n]] && w'.free == w1.free
    ensures Held(w', kernel) && Evolves(w, w', root) && PagesSame(w, w', root, if level == 0 then {v} else {})
  {
    var c := KeyOf(v, level);
    KeyParent(v, level);
    assert level < 3 ==> KeyOf(v, level + 1) in w1.spaces[root];
    AboveHeld(w1, kernel, root, v, level);
    Hung(w1, w', kernel, root, c, n);
    assert FreeAt(w, n.frame);
    forall f: nat | f < |w.mem| ensures StepAt(w, w', root, f) { }
    PagesKept(w, w', kernel, root, if level == 0 then {v} else {});
  }

  /** A frame neither free nor owned by the space stays as it is. */
  lemma FrameKept(w: World, w': World, kernel: nat, root: nat, f: nat)
    requires Held(w, kernel) && Evolves(w, w', root) && f < |w.mem| && f !in w.free && w.owner[f] == Nobody
    ensures w'.mem[f] == w.mem[f] && w'.owner[f] == w.owner[f] && f !in w'.free
  {
    assert StepAt(w, w', root, f);
  }

  /** The world `w'` seen with `f` still free, as it was in `w`. */
  lemma Restored(w: World, w1: World, w': World, kernel: nat, root: nat, f: nat) returns (w2: World)
    requires Held(w, kernel) && f in w.free && w1.spaces == w.spaces && w1.owner == w.owner && w1.free == w.free - {f}
      && |w1.mem| == |w.mem|
    requires forall g: nat :: g < |w.mem| && g != f ==> w1.mem[g] == w.mem[g]
    requires Held(w1, kernel) && Held(w', kernel) && Evolves(w1, w', root) && PagesSame(w1, w', root, {})
      && root in w.spaces
    ensures w2 == w'.(free := w'.free + {f}) && Held(w2, kernel) && Evolves(w, w2, root) && PagesSame(w, w2, root, {})
      && f !in w'.free
  {
    w2 := w'.(free := w'.free + {f});
    FreeIsNoRoot(w, kernel, f);
    FrameKept(w1, w', kernel, root, f);
    Unowned(w', w2, kernel, f, w'.mem[f]);
    forall g: nat | g < |w.mem| ensures StepAt(w, w2, root, g) { assert StepAt(w1, w', root, g); }
    forall v: nat ensures PageSame(w, w2, root, v) {
      assert PageSame(w1, w', root, v);
      if Key(0, v) in w.spaces[root] { LeafOf(w, kernel, root, v); }
    }
  }

  // ---------------------------------------------------------------- what a program sees

  /** The processor's walk from table `t`: rights narrow on the way down. */
  function Walk(mem: seq<Frame>, t: nat, v: nat, level: nat): (r: Option<Node>)
    decreases level
  {
    var e := if t < |mem| then EntryOf(mem[t], Pre(v, level) % ENTRIES) else Absent;
    if e == Absent || !e.user then None
    else if level == 0 then Some(Node(e.frame, e.writable, e.noExec))
    else match Walk(mem, e.frame, v, level - 1)
      case None => None
      case Some(n) => Some(Node(n.frame, n.writable && e.writable, n.noExec || e.noExec))
  }

  /** The tree is what the processor finds: a page is reachable, with its rights, exactly when it is mapped. */
  lemma Translates(w: World, kernel: nat, root: nat, v: nat)
    requires Held(w, kernel) && root in w.spaces && InWindow(v)
    ensures Walk(w.mem, root, v, 3) == if Key(0, v) in w.spaces[root] then Some(w.spaces[root][Key(0, v)]) else None
  {
    WalkFrom(w, kernel, root, v, 3);
  }

  lemma {:induction false} WalkFrom(w: World, kernel: nat, root: nat, v: nat, level: nat)
    requires Held(w, kernel) && root in w.spaces && InWindow(v) && level <= 3
      && (level < 3 ==> KeyOf(v, level + 1) in w.spaces[root])
    ensures Walk(w.mem, Holder(root, w.spaces[root], KeyOf(v, level)), v, level)
      == if Key(0, v) in w.spaces[root] then Some(w.spaces[root][Key(0, v)]) else None
  {
    var sp, k := w.spaces[root], KeyOf(v, level);
    AboveHeld(w, kernel, root, v, level);
    if k in sp {
      assert Live(w, root, kernel) && NodeOk(w.mem, w.owner, root, sp, k);
      if level > 0 {
        KeyParent(v, level - 1);
        WalkFrom(w, kernel, root, v, level - 1);
      }
    } else {
      PathTo(w, kernel, root, v, level);
    }
  }

  /** A mapped page has its tables. */
  lemma {:induction false} PathTo(w: World, kernel: nat, root: nat, v: nat, level: nat)
    requires Held(w, kernel) && root in w.spaces && level <= 3
    ensures Key(0, v) in w.spaces[root] ==> KeyOf(v, level) in w.spaces[root]
  {
    if level > 0 && Key(0, v) in w.spaces[root] {
      PathTo(w, kernel, root, v, level - 1);
      KeyParent(v, level - 1);
      assert Live(w, root, kernel) && NodeOk(w.mem, w.owner, root, w.spaces[root], KeyOf(v, level - 1));
    }
  }

  function Zeroes(n: nat): (r: seq<byte>)
    ensures |r| == n && forall i :: 0 <= i < n ==> r[i] == 0
  { if n == 0 then [] else Zeroes(n - 1) + [0] }

  /** `data` copied into a scrubbed frame at `offset`, as far as it fits. */
  function Copied(data: seq<byte>, offset: nat): (r: seq<byte>)
    requires offset <= FRAME_SIZE
    ensures |r| == FRAME_SIZE && forall j :: 0 <= j < FRAME_SIZE ==>
      r[j] == if offset <= j < offset + |data| then data[j - offset] else 0
  {
    var n := if |data| <= FRAME_SIZE - offset then |data| else FRAME_SIZE - offset;
    Zeroes(offset) + data[..n] + Zeroes(FRAME_SIZE - offset - n)
  }

  /** Page `v` is mapped with these rights and holds these bytes. */
  ghost predicate PageIs(w: World, root: nat, v: nat, bytes: seq<byte>, writable: bool, executable: bool) {
    root in w.spaces && Key(0, v) in w.spaces[root] && var n := w.spaces[root][Key(0, v)];
    n.writable == writable && n.noExec == !executable && n.frame < |w.mem| && w.mem[n.frame] == Data(bytes)
  }

  class Spaces {
    const fa: FrameAllocator
    const kernel: nat
    var slots: seq<bool>
    ghost var owner: seq<Owner>
    ghost var spaces: map<nat, Space>

    ghost function W(): (w: World)
      reads this, fa
    { World(fa.mem, owner, fa.free, spaces) }

    ghost predicate Valid()
      reads this, fa, fa.used, fa.zeroed
    { fa.Valid() && |slots| == SLOTS && |fa.mem| == fa.total && Held(W(), kernel) }

    constructor (fa: FrameAllocator, kernel: nat)
      requires fa.Valid() && kernel < fa.total && kernel !in fa.free && 0 !in fa.free && !fa.mem[kernel].Data?
      ensures Valid() && this.fa == fa && this.kernel == kernel && spaces == map[]
    {
      this.fa, this.kernel := fa, kernel;
      slots := seq(SLOTS, _ => false);
      owner := seq(|fa.mem|, _ => Nobody);
      spaces := map[];
      new;
      assert forall f: nat :: f in fa.free ==> FreeAt(W(), f);
    }

    /** Frees everything under table `k`. */
    method FreeLevel(t: nat, level: nat, freed: nat, ghost w: World, ghost root: nat, ghost k: Key,
        ghost gone: set<Key>) returns (freed': nat, ghost gone': set<Key>)
      requires fa.Valid() && |fa.mem| == fa.total && Held(w, kernel) && root in w.spaces && k in w.spaces[root]
        && k.level == level > 0 && w.spaces[root][k].frame == t
      requires Freed(fa.mem, fa.free, w.mem, w.free, w.owner, root, gone) && k !in gone
        && BelowTo(w.spaces[root], k, ENTRIES) !! gone
      modifies fa, fa.used, fa.zeroed
      ensures fa.Valid() && Freed(fa.mem, fa.free, w.mem, w.free, w.owner, root, gone')
      ensures gone' == gone + BelowTo(w.spaces[root], k, ENTRIES) && freed' - freed == |gone'| - |gone|
      decreases level, 1
    {
      gone', freed' := gone, freed;
      for i := 0 to ENTRIES
        invariant fa.Valid() && Freed(fa.mem, fa.free, w.mem, w.free, w.owner, root, gone')
        invariant gone' == gone + BelowTo(w.spaces[root], k, i) && freed' - freed == |gone'| - |gone|
      {
        freed', gone' := FreeEntry(t, level, i, freed', w, root, k, gone, gone');
      }
    }

    method FreeEntry(t: nat, level: nat, i: nat, freed: nat, ghost w: World, ghost root: nat, ghost k: Key,
        ghost gone: set<Key>, ghost now: set<Key>) returns (freed': nat, ghost gone': set<Key>)
      requires fa.Valid() && |fa.mem| == fa.total && Held(w, kernel) && root in w.spaces && k in w.spaces[root]
        && k.level == level > 0 && w.spaces[root][k].frame == t
      requires Freed(fa.mem, fa.free, w.mem, w.free, w.owner, root, now) && k !in gone
        && BelowTo(w.spaces[root], k, ENTRIES) !! gone && i < ENTRIES
      requires now == gone + BelowTo(w.spaces[root], k, i)
      modifies fa, fa.used, fa.zeroed
      ensures fa.Valid() && Freed(fa.mem, fa.free, w.mem, w.free, w.owner, root, gone')
      ensures gone' == gone + BelowTo(w.spaces[root], k, i + 1) && freed' - freed == |gone'| - |now|
      decreases level, 0
    {
      ghost var sp := w.spaces[root];
      gone', freed' := now, freed;
      assert Live(w, root, kernel) && NodeOk(w.mem, w.owner, root, sp, k);
      assert FreedAt(fa.mem, fa.free, w.mem, w.free, w.owner, root, now, t) && ChildIs(w.mem, sp, k, i);
      var e := EntryOf(fa.mem[t], i);
      if e == Absent {
        BelowSkip(w.mem, w.owner, root, sp, kernel, k, i);
      } else {
        BelowStep(sp, k, i);
        BelowWithin(sp, k, i);
        freed', gone' := FreeChild(e.frame, level - 1, freed', w, root, Child(k, i), now);
      }
    }

    method FreeChild(t: nat, level: nat, freed: nat, ghost w: World, ghost root: nat, ghost k: Key,
        ghost gone: set<Key>) returns (freed': nat, ghost gone': set<Key>)
      requires fa.Valid() && |fa.mem| == fa.total && Held(w, kernel) && root in w.spaces && k in w.spaces[root]
        && k.level == level && w.spaces[root][k].frame == t
      requires Freed(fa.mem, fa.free, w.mem, w.free, w.owner, root, gone) && k !in gone
        && BelowTo(w.spaces[root], k, ENTRIES) !! gone
      modifies fa, fa.used, fa.zeroed
      ensures fa.Valid() && Freed(fa.mem, fa.free, w.mem, w.free, w.owner, root, gone')
      ensures gone' == gone + BelowTo(w.spaces[root], k, ENTRIES) + {k} && freed' - freed == |gone'| - |gone|
      decreases level, 2
    {
      freed', gone' := freed, gone;
      if level > 0 { freed', gone' := FreeLevel(t, level, freed, w, root, k, gone); }
      assert Live(w, root, kernel) && NodeOk(w.mem, w.owner, root, w.spaces[root], k);
      assert FreedAt(fa.mem, fa.free, w.mem, w.free, w.owner, root, gone', t);
      assert forall g: nat :: g < |w.owner| && w.owner[g] == w.owner[t] ==> OwnerOk(w, g);
      FreedOne(fa.mem, fa.free, w.mem, w.free, w.owner, root, gone', t);
      fa.Deallocate(t);
      freed', gone' := freed' + 1, gone' + {k};
    }

    /** free_address_space: frees every frame of the space exactly once and nothing else. */
    method FreeAddressSpace(root: nat) returns (freed: nat)
      requires Valid() && root in spaces
      modifies this`owner, this`spaces, fa, fa.used, fa.zeroed
      ensures Valid() && spaces == old(spaces) - {root} && freed == |old(spaces)[root]| + 1
      ensures forall f: nat :: f < |fa.mem| ==> GoneAt(old(W()), W(), root, f)
    {
      ghost var w := W();
      ghost var gone;
      freed, gone := FreeTree(root);
      ghost var mem', free' := fa.mem, fa.free;
      RootLeft(w, mem', free', kernel, root, gone);
      fa.Deallocate(root);
      freed := freed + 1;
      owner := Disowned(owner, root);
      spaces := spaces - {root};
      AllGone(w, W(), mem', free', kernel, root, gone);
      TornDown(w, W(), kernel, root);
    }

    method FreeTree(root: nat) returns (freed: nat, ghost gone: set<Key>)
      requires Valid() && root in spaces
      modifies fa, fa.used, fa.zeroed
      ensures fa.Valid() && Freed(fa.mem, fa.free, old(fa.mem), old(fa.free), owner, root, gone)
        && gone == spaces[root].Keys && freed == |spaces[root]|
    {
      ghost var w := W();
      ghost var sp := spaces[root];
      assert Live(w, root, kernel);
      AllBelow(w.mem, w.owner, root, sp, kernel);
      var top := EntryOf(fa.mem[root], SLOT);
      freed, gone := 0, {};
      NothingGone(w, kernel, root);
      if top != Absent { freed, gone := FreeChild(top.frame, 3, 0, w, root, TOP, {}); }
      assert |sp| == |sp.Keys|;
    }

    /** new_address_space: a root that shares every kernel entry, with an empty user window. */
    method NewAddressSpace() returns (r: Option<nat>)
      requires Valid()
      modifies this`owner, this`spaces, fa, fa.used, fa.zeroed
      ensures Valid() && (r.None? <==> old(fa.free) == {}) && (r.None? ==> W() == old(W()))
      ensures r.Some? ==>
        r.value in old(fa.free) && fa.free == old(fa.free) - {r.value} && r.value !in old(spaces)
        && spaces == old(spaces)[r.value := map[]]
      ensures r.Some? ==>
        r.value < |old(owner)| && owner == old(owner)[r.value := Root(r.value)]
        && (forall f: nat :: f < |fa.mem| && f != r.value ==> fa.mem[f] == old(fa.mem)[f])
    {
      ghost var w := W();
      r := fa.AllocateZeroed();
      if r.None? { return; }
      var root := r.value;
      FreeIsNoRoot(w, kernel, root);
      Unowned(w, W(), kernel, root, Zero);
      var d := Zero;
      for i := 0 to ENTRIES
        invariant !d.Data? && WellSized(d) && (i > 0 ==> d.Table?) && fa.mem[kernel] == w.mem[kernel]
        invariant forall j: nat :: j < i ==> CopiedAt(d, w.mem[kernel], j)
        invariant forall j: nat :: i <= j < ENTRIES ==> EntryOf(d, j) == Absent
      {
        ghost var was := d;
        d := WithEntry(d, i, if i == SLOT then Absent else EntryOf(fa.mem[kernel], i));
        forall j: nat | j < i + 1
          ensures CopiedAt(d, w.mem[kernel], j)
        {
          assert j < i ==> CopiedAt(was, w.mem[kernel], j);
        }
      }
      ghost var w' := W();
      fa.Write(root, d);
      owner := owner[root := Root(root)];
      spaces := spaces[root := map[]];
      SetUp(w', W(), kernel, root, d);
    }

    /** One step of walk_create: the table for page `v` at `level`, made when it is missing. */
    method Descend(root: nat, t: nat, v: nat, level: nat) returns (r: Option<nat>)
      requires Valid() && root in spaces && InWindow(v) && 1 <= level <= 3
        && (level < 3 ==> KeyOf(v, level + 1) in spaces[root]) && t == Holder(root, spaces[root], KeyOf(v, level))
      modifies this`owner, this`spaces, fa, fa.used, fa.zeroed
      ensures Valid() && root in spaces && Evolves(old(W()), W(), root) && PagesSame(old(W()), W(), root, {})
      ensures r.None? <==> KeyOf(v, level) !in old(spaces)[root] && old(fa.free) == {}
      ensures r.None? || KeyOf(v, level) in old(spaces)[root] ==> W() == old(W())
      ensures r.Some? ==> KeyOf(v, level) in spaces[root] && r.value == spaces[root][KeyOf(v, level)].frame
      ensures r.Some? && KeyOf(v, level) !in old(spaces)[root] ==>
        spaces[root] == old(spaces)[root][KeyOf(v, level) := Node(r.value, true, false)]
        && |fa.free| + 1 == |old(fa.free)|
    {
      ghost var w := W();
      AboveHeld(w, kernel, root, v, level);
      EvolvesNot(w, root);
      PagesKept(w, w, kernel, root, {});
      KeyParent(v, level);
      var e := EntryOf(fa.mem[t], Pre(v, level) % ENTRIES);
      if e == Absent {
        r := NewTable(root, t, v, level);
      } else if e.huge {
        r := None;
      } else {
        r := Some(e.frame);
      }
    }

    method NewTable(root: nat, t: nat, v: nat, level: nat) returns (r: Option<nat>)
      requires Valid() && root in spaces && InWindow(v) && 1 <= level <= 3
        && t == Holder(root, spaces[root], KeyOf(v, level)) && Vacant(spaces[root], KeyOf(v, level))
      modifies this`owner, this`spaces, fa, fa.used, fa.zeroed
      ensures Valid() && (r.None? <==> old(fa.free) == {}) && (r.None? ==> W() == old(W()))
      ensures r.Some? ==>
        Evolves(old(W()), W(), root) && PagesSame(old(W()), W(), root, {}) && |fa.free| + 1 == |old(fa.free)|
      ensures r.Some? ==>
        root in spaces && spaces[root] == old(spaces)[root][KeyOf(v, level) := Node(r.value, true, false)]
    {
      ghost var w := W();
      r := fa.AllocateZeroed();
      if r.None? { return; }
      FreeIsNoRoot(w, kernel, r.value);
      Unowned(w, W(), kernel, r.value, Zero);
      Hang(root, t, v, level, r.value, true, false, w);
    }

    /** Writes the entry for page `v` at `level` into table `t`. */
    method Hang(root: nat, t: nat, v: nat, level: nat, f: nat, writable: bool, noExec: bool, ghost w: World)
      requires Valid() && root in spaces && InWindow(v) && level <= 3
        && t == Holder(root, spaces[root], KeyOf(v, level)) && Vacant(spaces[root], KeyOf(v, level))
      requires Held(w, kernel) && f in w.free && spaces == w.spaces && owner == w.owner && fa.free == w.free - {f}
        && |fa.mem| == |w.mem| && (forall g: nat :: g < |w.mem| && g != f ==> fa.mem[g] == w.mem[g])
      requires Fresh(fa.mem, owner, kernel, KeyOf(v, level), Node(f, writable, noExec))
      modifies this`owner, this`spaces, fa`mem
      ensures Valid() && Evolves(w, W(), root) && PagesSame(w, W(), root, if level == 0 then {v} else {})
        && fa.free == old(fa.free)
      ensures spaces == old(spaces)[root := old(spaces)[root][KeyOf(v, level) := Node(f, writable, noExec)]]
        && f < |old(fa.mem)| == |fa.mem| && fa.mem[f] == old(fa.mem)[f]
    {
      ghost var w1, n := W(), Node(f, writable, noExec);
      KeyParent(v, level);
      AboveHeld(w1, kernel, root, v, level);
      fa.Write(t, WithEntry(fa.mem[t], Pre(v, level) % ENTRIES, EntryFor(Node(f, writable, noExec))));
      owner := owner[f := Part(root, KeyOf(v, level))];
      spaces := spaces[root := spaces[root][KeyOf(v, level) := n]];
      HungStep(w, w1, W(), kernel, root, v, level, n);
    }

    /**
      walk_create: the last-level table for page `v`. It fails exactly when the missing tables
      outnumber the free frames.
     */
    method WalkCreate(root: nat, v: nat) returns (r: Option<nat>)
      requires Valid() && root in spaces && InWindow(v)
      modifies this`owner, this`spaces, fa, fa.used, fa.zeroed
      ensures Valid() && root in spaces && Evolves(old(W()), W(), root) && PagesSame(old(W()), W(), root, {})
      ensures r.None? <==> |old(fa.free)| < Missing(old(spaces)[root], v, 3)
      ensures r.Some? ==>
        KeyOf(v, 1) in spaces[root] && r.value == spaces[root][KeyOf(v, 1)].frame
        && |fa.free| == |old(fa.free)| - Missing(old(spaces)[root], v, 3)
    {
      ghost var w, short := W(), |fa.free| - Missing(spaces[root], v, 3);
      EvolvesNot(w, root);
      PagesKept(w, w, kernel, root, {});
      var t, level := root, 3;
      while level > 0
        invariant Valid() && root in spaces && level <= 3 && Evolves(w, W(), root) && PagesSame(w, W(), root, {})
        invariant t == Holder(root, spaces[root], KeyOf(v, level))
          && (level < 3 ==> KeyOf(v, level + 1) in spaces[root])
        invariant |fa.free| - Missing(spaces[root], v, level) == short
      {
        ghost var w', sp := W(), spaces[root];
        var next := Descend(root, t, v, level);
        EvolvesTwice(w, w', W(), root);
        PagesTwice(w, w', W(), root, {}, {});
        if next.None? { return None; }
        MissingBelow(sp, v, level - 1, KeyOf(v, level), Node(next.value, true, false));
        KeyParent(v, level - 1);
        t, level := next.value, level - 1;
      }
      KeyParent(v, 0);
      r := Some(t);
    }

    /** map_user_page: maps frame `f`, already filled, as page `v`. */
    method MapUserPage(root: nat, v: nat, f: nat, writable: bool, executable: bool, ghost w: World)
        returns (r: MapResult)
      requires Valid() && root in spaces && InWindow(v) && Held(w, kernel) && f in w.free
      requires spaces == w.spaces && owner == w.owner && fa.free == w.free - {f} && |fa.mem| == |w.mem| && f < |w.mem|
        && fa.mem[f].Data? && (forall g: nat :: g < |w.mem| && g != f ==> fa.mem[g] == w.mem[g])
      modifies this`owner, this`spaces, fa, fa.used, fa.zeroed
      ensures Valid() && root in spaces && f < |fa.mem| && fa.mem[f] == old(fa.mem)[f]
      ensures r.OutOfMemory? <==> |old(fa.free)| < Missing(old(spaces)[root], v, 3)
      ensures r.AlreadyMapped? <==> !r.OutOfMemory? && Key(0, v) in old(spaces)[root]
      ensures r.Mapped? ==>
        Evolves(w, W(), root) && PagesSame(w, W(), root, {v}) && Key(0, v) in spaces[root]
        && spaces[root][Key(0, v)] == Node(f, writable, !executable)
        && |fa.free| == |old(fa.free)| - Missing(old(spaces)[root], v, 3)
      ensures !r.Mapped? ==> Evolves(old(W()), W(), root) && PagesSame(old(W()), W(), root, {})
    {
      ghost var w1 := W();
      var pt := WalkCreate(root, v);
      FrameKept(w1, W(), kernel, root, f);
      if pt.None? { return OutOfMemory; }
      KeyParent(v, 0);
      AboveHeld(W(), kernel, root, v, 0);
      assert PageSame(w1, W(), root, v);
      if EntryOf(fa.mem[pt.value], v % ENTRIES) != Absent { return AlreadyMapped; }
      ghost var w2 := Restored(w, w1, W(), kernel, root, f);
      Hang(root, pt.value, v, 0, f, writable, !executable, w2);
      EvolvesTwice(w, w2, W(), root);
      PagesTwice(w, w2, W(), root, {}, {v});
      r := Mapped;
    }

    /** map_fresh: a new page holding `data`; a frame that could not be mapped goes back. */
    method MapFresh(root: nat, v: nat, data: seq<byte>, offset: nat, writable: bool, executable: bool)
        returns (r: MapResult)
      requires Valid() && root in spaces && InWindow(v) && offset <= FRAME_SIZE
      modifies this`owner, this`spaces, fa, fa.used, fa.zeroed
      ensures Valid() && root in spaces && Evolves(old(W()), W(), root)
      ensures r.OutOfMemory? <==> |old(fa.free)| < 1 + Missing(old(spaces)[root], v, 3)
      ensures r.AlreadyMapped? <==> !r.OutOfMemory? && Key(0, v) in old(spaces)[root]
      ensures !r.Mapped? ==> PagesSame(old(W()), W(), root, {})
      ensures r.Mapped? ==>
        PageIs(W(), root, v, Copied(data, offset), writable, executable) && PagesSame(old(W()), W(), root, {v})
        && |fa.free| == |old(fa.free)| - 1 - Missing(old(spaces)[root], v, 3)
    {
      ghost var w := W();
      EvolvesNot(w, root);
      var f := fa.AllocateZeroed();
      if f.None? {
        PagesBeside(w, W(), kernel, root, 0);
        return OutOfMemory;
      }
      FreeIsNoRoot(w, kernel, f.value);
      fa.Write(f.value, Data(Copied(data, offset)));
      Unowned(w, W(), kernel, f.value, Data(Copied(data, offset)));
      ghost var w1 := W();
      r := MapUserPage(root, v, f.value, writable, executable, w);
      if !r.Mapped? { GiveBack(root, f.value, w, w1); }
    }

    method GiveBack(root: nat, f: nat, ghost w: World, ghost w1: World)
      requires Valid() && root in spaces && Held(w, kernel) && Held(w1, kernel) && f in w.free && f < |w.mem|
        && Evolves(w1, W(), root) && PagesSame(w1, W(), root, {})
      requires w1.spaces == w.spaces && w1.owner == w.owner && w1.free == w.free - {f} && |w1.mem| == |w.mem|
        && root in w.spaces && (forall g: nat :: g < |w.mem| && g != f ==> w1.mem[g] == w.mem[g])
      modifies fa, fa.used, fa.zeroed
      ensures Valid() && Evolves(w, W(), root) && PagesSame(w, W(), root, {})
    {
      ghost var w2 := W();
      ghost var w3 := Restored(w, w1, w2, kernel, root, f);
      FreeIsNoRoot(w3, kernel, f);
      fa.Deallocate(f);
      Unowned(w2, W(), kernel, f, Zero);
      forall g: nat | g < |w.mem| ensures StepAt(w, W(), root, g) { assert StepAt(w, w3, root, g); }
      PagesBeside(w3, W(), kernel, root, f);
      PagesTwice(w, w3, W(), root, {}, {});
    }

    /** alloc_slot: the first free ownership ID from `rotate` on, cyclically. */
    method AllocSlot(rotate: nat) returns (r: Option<nat>)
      requires |slots| == SLOTS && rotate < SLOTS
      modifies this`slots
      ensures r.None? <==> forall i :: 0 <= i < SLOTS ==> old(slots)[i]
      ensures r.None? ==> slots == old(slots)
      ensures r.Some? ==> r.value < SLOTS && !old(slots)[r.value] && slots == old(slots)[r.value := true]
      ensures r.Some? ==>
        forall s: nat :: s < SLOTS && Scanned(rotate, (r.value + SLOTS - rotate) % SLOTS, SLOTS, s) ==> old(slots)[s]
    {
      for i := 0 to SLOTS
        invariant slots == old(slots) && forall s: nat :: Scanned(rotate, i, SLOTS, s) && s < SLOTS ==> slots[s]
      {
        Around(rotate, i, SLOTS);
        var s := (rotate + i) % SLOTS;
        if !slots[s] {
          slots := slots[s := true];
          return Some(s);
        }
      }
      assert forall s: nat :: s < SLOTS ==> Scanned(rotate, SLOTS, SLOTS, s);
      r := None;
    }

    method FreeSlot(slot: nat)
      requires slot < |slots|
      modifies this`slots
      ensures slots == old(slots)[slot := false]
    {
      slots := slots[slot := false];
    }

    /** release: the space's frames and its ownership ID. */
    method Release(root: nat, slot: nat) returns (freed: nat)
      requires Valid() && root in spaces && slot < SLOTS
      modifies this, fa, fa.used, fa.zeroed
      ensures Valid() && spaces == old(spaces) - {root} && slots == old(slots)[slot := false]
        && freed == |old(spaces)[root]| + 1
      ensures forall f: nat :: f < |fa.mem| ==> GoneAt(old(W()), W(), root, f)
    {
      freed := FreeAddressSpace(root);
      FreeSlot(slot);
    }
  }
}

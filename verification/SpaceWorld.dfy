/**
  All live address spaces beside the free frames: what each step of mapping and
  tearing down does to the whole (src/arch/amd64/memory.rs, src/memory/user.rs).
 */
module SpaceWorld {
  import opened Frames
  import opened PageTables

  datatype World = World(mem: seq<Frame>, owner: seq<Owner>, free: set<nat>, spaces: map<nat, Space>)

  ghost predicate FreeAt(w: World, f: nat) { f < |w.owner| && w.owner[f] == Nobody }

  /** An owner's frame is where its space says. */
  ghost predicate OwnerOk(w: World, f: nat)
    requires f < |w.owner|
  {
    match w.owner[f]
    case Nobody => true
    case Root(r) => r == f && r in w.spaces
    case Part(r, k) => r in w.spaces && k in w.spaces[r] && w.spaces[r][k].frame == f
  }

  ghost predicate Live(w: World, r: nat, kernel: nat)
    requires r in w.spaces
  { SpaceOk(w.mem, w.owner, r, w.spaces[r], kernel) }

  /** Free frames and the trees of live roots are disjoint, and each tree is well formed. */
  ghost predicate Held(w: World, kernel: nat) {
    && |w.owner| == |w.mem| && kernel < |w.mem| && w.owner[kernel] == Nobody && kernel !in w.free
    && !w.mem[kernel].Data? && w.owner[0] == Nobody && 0 !in w.free
    && (forall i :: 0 <= i < |w.mem| ==> WellSized(w.mem[i]))
    && (forall f: nat :: f in w.free ==> FreeAt(w, f))
    && (forall f: nat :: f < |w.owner| ==> OwnerOk(w, f))
    && (forall r {:trigger Live(w, r, kernel)} :: r in w.spaces ==> Live(w, r, kernel))
  }

  /** Frames a space owns or may come to own. */
  predicate InPool(w: World, root: nat, f: nat) { f in w.free || Belongs(w.owner, f, root) }

  ghost predicate StepAt(w: World, w': World, root: nat, f: nat) {
    && f < |w.mem| == |w.owner| == |w'.mem| == |w'.owner| && (InPool(w', root, f) <==> InPool(w, root, f))
    && (!InPool(w, root, f) ==> w'.owner[f] == w.owner[f] && w'.mem[f] == w.mem[f])
  }

  /** From `w` to `w'` only the space `root` changed, within its own and free frames. */
  ghost predicate Evolves(w: World, w': World, root: nat) {
    && |w.mem| == |w.owner| == |w'.mem| == |w'.owner| && w'.spaces - {root} == w.spaces - {root}
    && forall f: nat :: f < |w.mem| ==> StepAt(w, w', root, f)
  }

  lemma EvolvesTwice(w: World, w': World, w'': World, root: nat)
    requires Evolves(w, w', root) && Evolves(w', w'', root)
    ensures Evolves(w, w'', root)
  {
    forall f: nat | f < |w.mem|
      ensures StepAt(w, w'', root, f)
    {
      assert StepAt(w, w', root, f) && StepAt(w', w'', root, f);
    }
  }

  lemma EvolvesNot(w: World, root: nat)
    requires |w.mem| == |w.owner|
    ensures Evolves(w, w, root)
  {
    forall f: nat | f < |w.mem| ensures StepAt(w, w, root, f) { }
  }

  // ---------------------------------------------------------------- frames taken, given back, written

  /** Memory changed at an unowned frame. */
  lemma Unowned(w: World, w': World, kernel: nat, f: nat, d: Frame)
    requires Held(w, kernel) && f < |w.mem| && w.owner[f] == Nobody && f != kernel && f != 0 && w'.mem == w.mem[f := d]
      && w'.owner == w.owner && w'.spaces == w.spaces && WellSized(d)
    requires w'.free == w.free || w'.free == w.free - {f} || w'.free == w.free + {f}
    ensures Held(w', kernel)
  {
    forall r | r in w'.spaces ensures Live(w', r, kernel) {
      assert Live(w, r, kernel);
      Untouched(w.mem, w.owner, w'.mem, w'.owner, r, w.spaces[r], kernel);
    }
    forall g: nat | g < |w'.owner| ensures OwnerOk(w', g) { assert OwnerOk(w, g); }
    forall g: nat | g in w'.free ensures FreeAt(w', g) { assert g in w.free ==> FreeAt(w, g); }
  }

  /** Bytes written into a mapped page. */
  lemma PageWritten(w: World, w': World, kernel: nat, root: nat, v: nat, d: Frame)
    requires Held(w, kernel) && root in w.spaces && Key(0, v) in w.spaces[root]
      && w.spaces[root][Key(0, v)].frame < |w.mem| && d.Data? && WellSized(d)
    requires w' == w.(mem := w.mem[w.spaces[root][Key(0, v)].frame := d])
    ensures Held(w', kernel) && Evolves(w, w', root)
  {
    var g := w.spaces[root][Key(0, v)].frame;
    assert Live(w, root, kernel) && NodeOk(w.mem, w.owner, root, w.spaces[root], Key(0, v));
    forall r | r in w'.spaces ensures Live(w', r, kernel) {
      assert Live(w, r, kernel);
      DataWritten(w.mem, w.owner, r, w.spaces[r], kernel, g, d);
    }
    forall f: nat | f < |w'.owner| ensures OwnerOk(w', f) { assert OwnerOk(w, f); }
    forall f: nat | f in w'.free ensures FreeAt(w', f) { assert FreeAt(w, f); }
    forall f: nat | f < |w.mem| ensures StepAt(w, w', root, f) { }
  }

  /** A node hung into the tree. */
  lemma Hung(w: World, w': World, kernel: nat, root: nat, c: Key, n: Node)
    requires Held(w, kernel) && root in w.spaces && Vacant(w.spaces[root], c) && Fresh(w.mem, w.owner, kernel, c, n)
      && n.frame !in w.free
    requires EntryWritten(w.mem, w'.mem, Holder(root, w.spaces[root], c), Index(c), EntryFor(n))
    requires w'.owner == w.owner[n.frame := Part(root, c)] && w'.spaces == w.spaces[root := w.spaces[root][c := n]]
      && w'.free == w.free
    ensures Held(w', kernel)
  {
    assert Live(w, root, kernel);
    HolderOk(w.mem, w.owner, root, w.spaces[root], kernel, c);
    AddNode(w.mem, w.owner, root, w.spaces[root], kernel, c, n, w'.mem, w'.owner, w'.spaces[root]);
    forall r | r in w'.spaces ensures Live(w', r, kernel) {
      if r != root {
        assert Live(w, r, kernel);
        Untouched(w.mem, w.owner, w'.mem, w'.owner, r, w.spaces[r], kernel);
      }
    }
    forall f: nat | f < |w'.owner| ensures OwnerOk(w', f) { assert OwnerOk(w, f); }
    forall f: nat | f in w'.free ensures FreeAt(w', f) { assert FreeAt(w, f); }
  }

  // ---------------------------------------------------------------- a space set up and torn down

  /** A root entry copied from the kernel's table, or the empty one of the user window. */
  ghost predicate CopiedAt(root: Frame, kernel: Frame, i: nat)
  {
    EntryOf(root, i) == if i == SLOT then Absent else EntryOf(kernel, i)
  }

  lemma SetUp(w: World, w': World, kernel: nat, root: nat, d: Frame)
    requires Held(w, kernel) && root < |w.mem| && w.owner[root] == Nobody && root !in w.free && root != kernel
      && root != 0 && root !in w.spaces
    requires d.Table? && WellSized(d) && (forall i: nat :: i < ENTRIES ==> CopiedAt(d, w.mem[kernel], i))
    requires w' == World(w.mem[root := d], w.owner[root := Root(root)], w.free, w.spaces[root := map[]])
    ensures Held(w', kernel)
  {
    forall i: nat | i < ENTRIES && i != SLOT
      ensures SharedAt(w'.mem, root, kernel, i)
    {
      assert CopiedAt(d, w.mem[kernel], i);
    }
    assert CopiedAt(d, w.mem[kernel], SLOT);
    forall r | r in w'.spaces ensures Live(w', r, kernel) {
      if r != root {
        assert Live(w, r, kernel);
        Untouched(w.mem, w.owner, w'.mem, w'.owner, r, w.spaces[r], kernel);
      }
    }
    forall f: nat | f < |w'.owner| ensures OwnerOk(w', f) { assert OwnerOk(w, f); }
    forall f: nat | f in w'.free ensures FreeAt(w', f) { assert FreeAt(w, f); }
  }

  /** The world without space `root`: its frames are scrubbed and free. */
  ghost predicate GoneAt(w: World, w': World, root: nat, f: nat) {
    f < |w.mem| == |w.owner| == |w'.mem| == |w'.owner| && if Belongs(w.owner, f, root)
    then f in w'.free && w'.owner[f] == Nobody && w'.mem[f] == Zero
    else w'.owner[f] == w.owner[f] && w'.mem[f] == w.mem[f] && (f in w'.free <==> f in w.free)
  }

  lemma TornDown(w: World, w': World, kernel: nat, root: nat)
    requires Held(w, kernel) && root in w.spaces && w'.spaces == w.spaces - {root} && |w.mem| == |w'.mem| == |w'.owner|
    requires (forall f: nat :: f < |w.mem| ==> GoneAt(w, w', root, f))
      && (forall f: nat :: f in w'.free ==> f < |w.mem|)
    ensures Held(w', kernel)
  {
    assert GoneAt(w, w', root, kernel) && GoneAt(w, w', root, 0);
    forall i | 0 <= i < |w'.mem| ensures WellSized(w'.mem[i]) { assert GoneAt(w, w', root, i); }
    forall f: nat | f in w'.free
      ensures FreeAt(w', f)
    {
      assert GoneAt(w, w', root, f) && (f in w.free ==> FreeAt(w, f));
    }
    forall f: nat | f < |w'.owner| ensures OwnerOk(w', f) { assert OwnerOk(w, f) && GoneAt(w, w', root, f); }
    forall r | r in w'.spaces ensures Live(w', r, kernel) {
      assert Live(w, r, kernel);
      forall f: nat | Belongs(w.owner, f, r)
        ensures KeptAt(w.mem, w.owner, w'.mem, w'.owner, f)
      {
        assert GoneAt(w, w', root, f);
      }
      Untouched(w.mem, w.owner, w'.mem, w'.owner, r, w.spaces[r], kernel);
    }
  }

  // ---------------------------------------------------------------- pages

  /** Page `v` of a space is the same in both worlds. */
  ghost predicate PageSame(w: World, w': World, root: nat, v: nat) {
    root in w.spaces && root in w'.spaces && var k, sp, sp' := Key(0, v), w.spaces[root], w'.spaces[root];
    (k in sp <==> k in sp')
      && (k in sp ==> sp'[k] == sp[k] && sp[k].frame < |w.mem| == |w'.mem| && w'.mem[sp[k].frame] == w.mem[sp[k].frame])
  }

  ghost predicate PagesSame(w: World, w': World, root: nat, but: set<nat>)
  {
    forall v: nat :: v !in but ==> PageSame(w, w', root, v)
  }

  lemma PagesTwice(w: World, w': World, w'': World, root: nat, but: set<nat>, but': set<nat>)
    requires PagesSame(w, w', root, but) && PagesSame(w', w'', root, but')
    ensures PagesSame(w, w'', root, but + but')
  {
    forall v: nat | v !in but + but'
      ensures PageSame(w, w'', root, v)
    {
      assert PageSame(w, w', root, v) && PageSame(w', w'', root, v);
    }
  }

  lemma LeafOf(w: World, kernel: nat, root: nat, v: nat)
    requires Held(w, kernel) && root in w.spaces && Key(0, v) in w.spaces[root]
    ensures var f := w.spaces[root][Key(0, v)].frame;
      f < |w.mem| && w.owner[f] == Part(root, Key(0, v)) && !w.mem[f].Table? && f !in w.free
  {
    assert Live(w, root, kernel) && NodeOk(w.mem, w.owner, root, w.spaces[root], Key(0, v));
    var f := w.spaces[root][Key(0, v)].frame;
    assert f in w.free ==> FreeAt(w, f);
  }

  /** Memory changed at frames that are no page of the space. */
  lemma PagesKept(w: World, w': World, kernel: nat, root: nat, but: set<nat>)
    requires Held(w, kernel) && root in w.spaces && root in w'.spaces && |w'.mem| == |w.mem|
    requires forall v: nat :: v !in but ==>
      (Key(0, v) in w.spaces[root] <==> Key(0, v) in w'.spaces[root])
      && (Key(0, v) in w.spaces[root] ==> w'.spaces[root][Key(0, v)] == w.spaces[root][Key(0, v)])
    requires forall f: nat ::
      f < |w.mem| && w.owner[f].Part? && w.owner[f].root == root && w.owner[f].key.level == 0
      && w.owner[f].key.prefix !in but ==>
        w'.mem[f] == w.mem[f]
    ensures PagesSame(w, w', root, but)
  {
    forall v: nat | v !in but ensures PageSame(w, w', root, v) {
      if Key(0, v) in w.spaces[root] { LeafOf(w, kernel, root, v); }
    }
  }

  /** Memory changed at most at a frame that is free. */
  lemma PagesBeside(w: World, w': World, kernel: nat, root: nat, f: nat)
    requires Held(w, kernel) && root in w.spaces && w'.spaces == w.spaces && |w'.mem| == |w.mem|
      && (f in w.free || w'.mem == w.mem)
    requires forall g: nat :: g < |w.mem| && g != f ==> w'.mem[g] == w.mem[g]
    ensures PagesSame(w, w', root, {})
  {
    forall v: nat ensures PageSame(w, w', root, v) {
      if Key(0, v) in w.spaces[root] { LeafOf(w, kernel, root, v); }
    }
  }
}

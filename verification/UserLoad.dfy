/**
  Loading user programs (src/memory/user.rs): the pages a load leaves, and that a
  failed load leaves nothing. Random draws are parameters.
 */
module UserLoad {
  import opened Base
  import opened Frames
  import opened PageTables
  import opened SpaceWorld
  import opened AddressSpaces
  import opened UserPlan

  const CODE_PAGE: nat := 1
  const MAX_FLAT_IMAGE: nat := 0x10_0000 - 6 * 4096
  const STARTUP_MAGIC: nat := 0x4d4d_5552_544c_0001

  datatype UserImage = UserImage(entry: nat, stackTop: nat, stackEdge: nat, startup: nat, space: nat, slot: nat)

  /** The image starts on the stack of the layout. */
  predicate StackOf(img: UserImage, l: Layout) { img.stackTop == l.pointer && img.stackEdge == FRAME_SIZE * l.edge }

  datatype LoadResult = Loaded(image: UserImage) | BadImage | NoSlots | NoMemory | Clash

  /** Everything is as it was; only free frames may hold something else. */
  ghost predicate Undone(w: World, w': World) {
    w'.free == w.free && w'.owner == w.owner && w'.spaces == w.spaces && |w'.mem| == |w.mem|
      && forall f: nat :: f < |w.mem| && f !in w.free ==> w'.mem[f] == w.mem[f]
  }

  /** A new space torn down again: each of its frames is free once more, and no other. */
  lemma Restores(w: World, w1: World, w2: World, kernel: nat, root: nat)
    requires Held(w, kernel) && Held(w2, kernel) && root !in w.spaces && Evolves(w, w1, root)
      && w2.spaces == w1.spaces - {root} && |w2.mem| == |w2.owner| == |w.mem|
    requires forall f: nat :: f < |w.mem| ==> GoneAt(w1, w2, root, f)
    ensures Undone(w, w2)
  {
    forall f: nat | f < |w.mem|
      ensures w2.owner[f] == w.owner[f] && (f in w2.free <==> f in w.free) && (f !in w.free ==> w2.mem[f] == w.mem[f])
    {
      assert StepAt(w, w1, root, f) && GoneAt(w1, w2, root, f) && OwnerOk(w, f) && (f in w.free ==> FreeAt(w, f));
    }
    assert w2.owner == w.owner;
    forall f: nat
      ensures f in w2.free <==> f in w.free
    {
      assert (f in w2.free ==> FreeAt(w2, f)) && (f in w.free ==> FreeAt(w, f));
    }
    assert w2.spaces == w.spaces;
  }

  /** A space being filled: what it took it took from the free frames of `w`. */
  ghost predicate Loading(s: Spaces, w: World, root: nat, plan: seq<PagePlan>)
    reads s, s.fa, s.fa.used, s.fa.zeroed
  {
    s.Valid() && root in s.spaces && Evolves(w, s.W(), root) && Laid(s.W(), root, plan)
      && |w.free| <= |s.fa.free| + 1 + 4 * |plan|
  }

  lemma {:induction false} MissingMost(sp: Space, v: nat, level: nat)
    ensures Missing(sp, v, level) <= level
  {
    if level > 0 { MissingMost(sp, v, level - 1); }
  }

  /** One page mapped; it can only fail for lack of frames. */
  method Place(s: Spaces, ghost w: World, root: nat, ghost plan: seq<PagePlan>, v: nat, data: seq<byte>, offset: nat,
      writable: bool, executable: bool) returns (r: MapResult)
    requires Loading(s, w, root, plan) && InWindow(v) && !Listed(plan, v) && offset <= FRAME_SIZE
    modifies s`owner, s`spaces, s.fa, s.fa.used, s.fa.zeroed
    ensures s.Valid() && root in s.spaces && Evolves(w, s.W(), root) && !r.AlreadyMapped?
    ensures r.Mapped? ==> Loading(s, w, root, plan + [PagePlan(v, Copied(data, offset), writable, executable)])
    ensures r.OutOfMemory? ==> |w.free| < 1 + 4 * (|plan| + 1)
  {
    ghost var w1 := s.W();
    MissingMost(s.spaces[root], v, 3);
    r := s.MapFresh(root, v, data, offset, writable, executable);
    EvolvesTwice(w, w1, s.W(), root);
    if r.Mapped? { LaidMore(w1, s.W(), root, plan, PagePlan(v, Copied(data, offset), writable, executable)); }
  }

  /** A fresh space under a fresh ownership ID. */
  method Begin(s: Spaces, rotate: nat) returns (r: LoadResult)
    requires s.Valid() && rotate < SLOTS
    modifies s, s.fa, s.fa.used, s.fa.zeroed
    ensures s.Valid() && (r.Loaded? || r.NoSlots? || r.NoMemory?)
    ensures r.NoSlots? ==> forall i :: 0 <= i < SLOTS ==> old(s.slots)[i]
    ensures r.NoMemory? ==> old(s.fa.free) == {}
    ensures !r.Loaded? ==> s.slots == old(s.slots) && s.W() == old(s.W())
    ensures r.Loaded? ==>
      r.image.space !in old(s.spaces) && r.image.slot < SLOTS && !old(s.slots)[r.image.slot]
      && s.slots == old(s.slots)[r.image.slot := true]
    ensures r.Loaded? ==> Loading(s, old(s.W()), r.image.space, [])
  {
    ghost var w := s.W();
    var slot := s.AllocSlot(rotate);
    if slot.None? { return NoSlots; }
    var root := s.NewAddressSpace();
    if root.None? {
      s.FreeSlot(slot.value);
      return NoMemory;
    }
    forall f: nat | f < |w.mem|
      ensures StepAt(w, s.W(), root.value, f)
    {
      assert (f in w.free ==> FreeAt(w, f)) && OwnerOk(w, f);
    }
    r := Loaded(UserImage(0, 0, 0, 0, root.value, slot.value));
  }

  /** The load given up. */
  method Undo(s: Spaces, root: nat, slot: nat, ghost w: World, ghost slots: seq<bool>)
    requires s.Valid() && root in s.spaces && root !in w.spaces && Held(w, s.kernel) && Evolves(w, s.W(), root)
    requires slot < |slots| == SLOTS && !slots[slot] && s.slots == slots[slot := true]
    modifies s, s.fa, s.fa.used, s.fa.zeroed
    ensures s.Valid() && Undone(w, s.W()) && s.slots == slots
  {
    ghost var w1 := s.W();
    var _ := s.Release(root, slot);
    Restores(w, w1, s.W(), s.kernel, root);
  }

  /** Every page of a plan lies below the stack's `n`. */
  ghost predicate Below(plan: seq<PagePlan>, edge: nat, n: nat) { forall i :: 0 <= i < |plan| ==> plan[i].v + n < edge }

  /** The stack's pages, mapped from the top down. */
  method PlaceStack(s: Spaces, ghost w: World, root: nat, ghost plan: seq<PagePlan>, edge: nat, n: nat,
      block: seq<byte>) returns (r: MapResult)
    requires Loading(s, w, root, plan) && Below(plan, edge, n) && BASE_PAGE + n <= edge <= BASE_PAGE + 0x800_0000
      && |block| <= FRAME_SIZE
    modifies s`owner, s`spaces, s.fa, s.fa.used, s.fa.zeroed
    ensures s.Valid() && root in s.spaces && Evolves(w, s.W(), root) && !r.AlreadyMapped?
    ensures r.Mapped? ==> Loading(s, w, root, plan + StackPlan(edge, n, block))
    ensures r.OutOfMemory? ==> |w.free| < 1 + 4 * (|plan| + n)
  {
    r := Mapped;
    var i := 1;
    assert plan + StackPlan(edge, i - 1, block) == plan;
    while i <= n
      invariant 1 <= i <= n + 1 && Loading(s, w, root, plan + StackPlan(edge, i - 1, block)) && r.Mapped?
    {
      r := PlaceStackPage(s, w, root, plan, edge, n, i, block);
      if !r.Mapped? { return; }
      i := i + 1;
    }
  }

  method PlaceStackPage(s: Spaces, ghost w: World, root: nat, ghost plan: seq<PagePlan>, edge: nat, ghost n: nat,
      i: nat, block: seq<byte>) returns (r: MapResult)
    requires Below(plan, edge, n) && BASE_PAGE + n <= edge <= BASE_PAGE + 0x800_0000 && |block| <= FRAME_SIZE
      && 1 <= i <= n
    requires Loading(s, w, root, plan + StackPlan(edge, i - 1, block))
    modifies s`owner, s`spaces, s.fa, s.fa.used, s.fa.zeroed
    ensures s.Valid() && root in s.spaces && Evolves(w, s.W(), root) && !r.AlreadyMapped?
    ensures r.Mapped? ==> Loading(s, w, root, plan + StackPlan(edge, i, block))
    ensures r.OutOfMemory? ==> |w.free| < 1 + 4 * (|plan| + n)
  {
    WindowPages(edge - i);
    StackListed(plan, edge, n, i, block);
    StackMore(plan, edge, i, block);
    r := Place(s, w, root, plan + StackPlan(edge, i - 1, block), edge - i, StackData(i, block),
      if i == 1 then FRAME_SIZE - |block| else 0, true, false);
  }

  lemma StackMore(plan: seq<PagePlan>, edge: nat, i: nat, block: seq<byte>)
    requires 1 <= i <= edge && |block| <= FRAME_SIZE
    ensures plan + StackPlan(edge, i - 1,
      block) + [PagePlan(edge - i, Copied(StackData(i, block), if i == 1 then FRAME_SIZE - |block| else 0), true,
      false)] == plan + StackPlan(edge, i, block)
  {
    assert plan + StackPlan(edge, i - 1, block) + [StackPage(edge, i, block)]
      == plan + (StackPlan(edge, i - 1, block) + [StackPage(edge, i, block)]);
  }

  lemma StackListed(plan: seq<PagePlan>, edge: nat, n: nat, i: nat, block: seq<byte>)
    requires Below(plan, edge, n) && 1 <= i <= n <= edge && |block| <= FRAME_SIZE
    ensures !Listed(plan + StackPlan(edge, i - 1, block), edge - i)
  {
    var all := plan + StackPlan(edge, i - 1, block);
    forall k | 0 <= k < |all| ensures all[k].v != edge - i {
      if k < |plan| {
        assert all[k] == plan[k];
      } else {
        StackPlanAt(edge, i - 1, block, k - |plan|);
        assert all[k] == StackPage(edge, k - |plan| + 1, block);
      }
    }
  }

  /** The code of a flat program. */
  method PlaceCode(s: Spaces, ghost w: World, root: nat, code: seq<byte>, first: nat, n: nat) returns (r: MapResult)
    requires Loading(s, w, root, []) && BASE_PAGE <= first && first + n <= BASE_PAGE + 0x800_0000
      && (n == 0 || (n - 1) * FRAME_SIZE < |code| <= n * FRAME_SIZE)
    modifies s`owner, s`spaces, s.fa, s.fa.used, s.fa.zeroed
    ensures s.Valid() && root in s.spaces && Evolves(w, s.W(), root) && !r.AlreadyMapped?
    ensures r.Mapped? ==> Loading(s, w, root, CodePlan(code, first, n))
    ensures r.OutOfMemory? ==> |w.free| < 1 + 4 * n
  {
    r := Mapped;
    for i := 0 to n
      invariant Loading(s, w, root, CodePlan(code, first, i)) && r.Mapped?
    {
      r := PlaceCodePage(s, w, root, code, first, i, n);
      if !r.Mapped? { return; }
    }
  }

  method PlaceCodePage(s: Spaces, ghost w: World, root: nat, code: seq<byte>, first: nat, i: nat, ghost n: nat)
      returns (r: MapResult)
    requires i < n && BASE_PAGE <= first && first + n <= BASE_PAGE + 0x800_0000
      && (n - 1) * FRAME_SIZE < |code| <= n * FRAME_SIZE
    requires Loading(s, w, root, CodePlan(code, first, i))
    modifies s`owner, s`spaces, s.fa, s.fa.used, s.fa.zeroed
    ensures s.Valid() && root in s.spaces && Evolves(w, s.W(), root) && !r.AlreadyMapped?
    ensures r.Mapped? ==> Loading(s, w, root, CodePlan(code, first, i + 1))
    ensures r.OutOfMemory? ==> |w.free| < 1 + 4 * n
  {
    WindowPages(first + i);
    CodeListed(code, first, i);
    var start := i * FRAME_SIZE;
    var end := if start + FRAME_SIZE < |code| then start + FRAME_SIZE else |code|;
    r := Place(s, w, root, CodePlan(code, first, i), first + i, code[start..end], 0, false, true);
  }

  lemma CodeListed(code: seq<byte>, first: nat, i: nat)
    requires i * FRAME_SIZE <= |code|
    ensures !Listed(CodePlan(code, first, i), first + i)
    ensures CodePlan(code, first, i + 1) == CodePlan(code, first,
      i) + [PagePlan(first + i, Copied(Chunk(code, i), 0), false, true)]
  {
    var plan := CodePlan(code, first, i);
    forall k | 0 <= k < |plan| ensures plan[k].v != first + i { CodePlanAt(code, first, i, k); }
  }

  function FlatPages(code: seq<byte>): (n: nat) { (|code| + FRAME_SIZE - 1) / FRAME_SIZE }

  predicate FlatFits(code: seq<byte>) { code != [] && FlatPages(code) * FRAME_SIZE <= MAX_FLAT_IMAGE }

  function FlatPlan(code: seq<byte>, l: Layout): (plan: seq<PagePlan>)
    requires l.edge >= l.depth
  { CodePlan(code, l.bias + CODE_PAGE, FlatPages(code)) + StackPlan(l.edge, l.depth, []) }

  method Populate(s: Spaces, ghost w: World, root: nat, code: seq<byte>, l: Layout, pages: nat) returns (r: MapResult)
    requires Loading(s, w, root, []) && FlatFits(code) && pages == FlatPages(code)
    requires Placed(l)
    modifies s`owner, s`spaces, s.fa, s.fa.used, s.fa.zeroed
    ensures s.Valid() && root in s.spaces && Evolves(w, s.W(), root) && !r.AlreadyMapped?
    ensures r.Mapped? ==> Laid(s.W(), root, FlatPlan(code, l))
    ensures r.OutOfMemory? ==> |w.free| < 1 + 4 * (pages + STACK_PAGES)
  {
    r := PlaceCode(s, w, root, code, l.bias + CODE_PAGE, pages);
    if !r.Mapped? { return; }
    CodeBelow(code, l.bias + CODE_PAGE, pages, l.edge, l.depth);
    r := PlaceStack(s, w, root, CodePlan(code, l.bias + CODE_PAGE, pages), l.edge, l.depth, []);
  }

  lemma CodeBelow(code: seq<byte>, first: nat, n: nat, edge: nat, depth: nat)
    requires (n == 0 || (n - 1) * FRAME_SIZE <= |code|) && first + n + depth <= edge
    ensures Below(CodePlan(code, first, n), edge, depth)
  {
    var plan := CodePlan(code, first, n);
    forall k | 0 <= k < |plan| ensures plan[k].v + depth < edge { CodePlanAt(code, first, n, k); }
  }

  /**
    load_program: it fails only for an image that does not fit or for lack of an ID or of
    frames, and then leaves nothing behind; what it took it took from the free frames.
   */
  method LoadProgram(s: Spaces, code: seq<byte>, rotate: nat, draw: (nat, nat, nat)) returns (r: LoadResult)
    requires s.Valid() && rotate < SLOTS
    modifies s, s.fa, s.fa.used, s.fa.zeroed
    ensures s.Valid() && !r.Clash? && (r.BadImage? <==> !FlatFits(code))
    ensures r.NoSlots? ==> forall i :: 0 <= i < SLOTS ==> old(s.slots)[i]
    ensures r.NoMemory? ==> |old(s.fa.free)| < 1 + 4 * (FlatPages(code) + STACK_PAGES)
    ensures !r.Loaded? ==> Undone(old(s.W()), s.W()) && s.slots == old(s.slots)
    ensures r.Loaded? ==>
      r.image.space !in old(s.spaces) && r.image.slot < SLOTS && !old(s.slots)[r.image.slot]
      && s.slots == old(s.slots)[r.image.slot := true]
    ensures r.Loaded? ==>
      Evolves(old(s.W()), s.W(), r.image.space)
      && Laid(s.W(), r.image.space, FlatPlan(code, Choose(draw.0, draw.1, draw.2)))
    ensures r.Loaded? ==>
      r.image.entry == FRAME_SIZE * (Choose(draw.0, draw.1, draw.2).bias + CODE_PAGE)
      && StackOf(r.image, Choose(draw.0, draw.1, draw.2)) && r.image.startup == 0
  {
    var pages := (|code| + FRAME_SIZE - 1) / FRAME_SIZE;
    if |code| == 0 || pages * FRAME_SIZE > MAX_FLAT_IMAGE { return BadImage; }
    ghost var w, slots := s.W(), s.slots;
    r := Begin(s, rotate);
    if !r.Loaded? { return; }
    var l, img := Choose(draw.0, draw.1, draw.2), r.image;
    var done := Populate(s, w, img.space, code, l, pages);
    if !done.Mapped? {
      Undo(s, img.space, img.slot, w, slots);
      return NoMemory;
    }
    r := Loaded(UserImage(FRAME_SIZE * (l.bias + CODE_PAGE), l.pointer, FRAME_SIZE * l.edge, 0, img.space, img.slot));
  }

  /** A program loaded and released again: every frame and the ID are back. */
  method LoadThenRelease(s: Spaces, code: seq<byte>, rotate: nat, draw: (nat, nat, nat)) returns (freed: nat)
    requires s.Valid() && rotate < SLOTS
    modifies s, s.fa, s.fa.used, s.fa.zeroed
    ensures s.Valid() && Undone(old(s.W()), s.W()) && s.slots == old(s.slots) && s.fa.freeFrames == old(s.fa.freeFrames)
  {
    ghost var w := s.W();
    var r := LoadProgram(s, code, rotate, draw);
    if !r.Loaded? { return 0; }
    ghost var w1 := s.W();
    freed := s.Release(r.image.space, r.image.slot);
    Restores(w, w1, s.W(), s.kernel, r.image.space);
  }
}

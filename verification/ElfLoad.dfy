/** load_elf (src/memory/user.rs:268-311): an accepted image becomes the memory its headers and relocations mean. */
module ElfLoad {
  import opened Base
  import opened Frames
  import opened PageTables
  import opened SpaceWorld
  import opened AddressSpaces
  import opened UserPlan
  import opened UserLoad
  import Elf
  import ElfHeaders
  import ElfParse

  const USER_BASE: Elf.u64 := 0x6400_0000_0000
  const IMAGE_LIMIT: Elf.u64 := 0x6440_0000_0000

  // ---------------------------------------------------------------- relocate_private_data

  function BytesOf(f: Frame): (bs: seq<byte>)
    requires WellSized(f)
    ensures |bs| == FRAME_SIZE
  { if f.Data? then f.bytes else Zeroes(FRAME_SIZE) }

  ghost predicate WordStored(mem: seq<Frame>, mem': seq<Frame>, f: nat, o: nat, word: seq<byte>) {
    f < |mem| && WellSized(mem[f]) && o + |word| <= FRAME_SIZE
      && mem' == mem[f := Data(Spliced(BytesOf(mem[f]), o, word))]
  }

  /**
    Stores a word through the page tables; it succeeds exactly for aligned addresses of mapped
    pages that cannot be executed.
   */
  method Relocate(s: Spaces, root: nat, va: nat, word: seq<byte>) returns (ok: bool)
    requires s.Valid() && root in s.spaces && |word| == 8
    modifies s.fa`mem
    ensures s.Valid()
      && (ok <==>
      va % 8 == 0 && InWindow(va / FRAME_SIZE) && Key(0, va / FRAME_SIZE) in s.spaces[root]
      && s.spaces[root][Key(0, va / FRAME_SIZE)].noExec)
    ensures !ok ==> s.fa.mem == old(s.fa.mem)
    ensures ok ==>
      WordStored(old(s.fa.mem), s.fa.mem, s.spaces[root][Key(0, va / FRAME_SIZE)].frame, va % FRAME_SIZE, word)
    ensures Evolves(old(s.W()), s.W(), root)
  {
    ghost var w := s.W();
    EvolvesNot(w, root);
    RootOwned(w, s.kernel, root);
    var v := va / FRAME_SIZE;
    WindowPages(v);
    if root == 0 || va % 8 != 0 || v < BASE_PAGE || v >= BASE_PAGE + 0x800_0000 { return false; }
    var leaf := FindLeaf(s, root, v);
    if leaf == Absent || !leaf.user || !leaf.noExec { return false; }
    StoreWord(s, root, v, leaf.frame, va % FRAME_SIZE, word);
    ok := true;
  }

  /** Stores a word of page `v`, which frame `f` holds. */
  method StoreWord(s: Spaces, ghost root: nat, ghost v: nat, f: nat, o: nat, word: seq<byte>)
    requires s.Valid() && root in s.spaces && InWindow(v) && Key(0, v) in s.spaces[root]
      && f == s.spaces[root][Key(0, v)].frame && o + |word| <= FRAME_SIZE
    modifies s.fa`mem
    ensures s.Valid() && WordStored(old(s.fa.mem), s.fa.mem, f, o, word) && Evolves(old(s.W()), s.W(), root)
  {
    ghost var w := s.W();
    LeafOf(w, s.kernel, root, v);
    var d := Data(Spliced(BytesOf(s.fa.mem[f]), o, word));
    s.fa.Write(f, d);
    PageWritten(w, s.W(), s.kernel, root, v, d);
  }

  /** The last-level entry for page `v`, if the tables above it are there. */
  method FindLeaf(s: Spaces, root: nat, v: nat) returns (e: Entry)
    requires s.Valid() && root in s.spaces && InWindow(v)
    ensures e == Want(s.spaces[root], Key(0, v))
  {
    ghost var sp := s.spaces[root];
    var t, level := root, 3;
    while level > 0
      invariant level <= 3 && t == Holder(root, sp, KeyOf(v, level)) && (level < 3 ==> KeyOf(v, level + 1) in sp)
    {
      AboveHeld(s.W(), s.kernel, root, v, level);
      PathTo(s.W(), s.kernel, root, v, level);
      e := EntryOf(s.fa.mem[t], Pre(v, level) % ENTRIES);
      if e == Absent { return; }
      if !e.user || e.huge { return Absent; }
      KeyParent(v, level - 1);
      t, level := e.frame, level - 1;
    }
    AboveHeld(s.W(), s.kernel, root, v, 0);
    e := EntryOf(s.fa.mem[t], v % ENTRIES);
  }

  /** The pages after one word is stored. */
  lemma LaidPatched(w: World, w': World, kernel: nat, root: nat, plan: seq<PagePlan>, bias: nat, f: Fix, va: nat)
    requires Held(w, kernel) && Laid(w, root, plan) && va == bias * FRAME_SIZE + f.target
      && Key(0, va / FRAME_SIZE) in w.spaces[root] && w' == w.(mem := w'.mem)
    requires WordStored(w.mem, w'.mem, w.spaces[root][Key(0, va / FRAME_SIZE)].frame, va % FRAME_SIZE, f.word)
    ensures Laid(w', root, PatchAll(Fixer(bias), plan, f))
  {
    var v, plan' := va / FRAME_SIZE, PatchAll(Fixer(bias), plan, f);
    LeafOf(w, kernel, root, v);
    forall i | 0 <= i < |plan'| ensures PlanAt(w', root, plan'[i]) && plan'[i].v == plan[i].v {
      assert PlanAt(w, root, plan[i]);
      PatchAllAt(Fixer(bias), plan, f, i);
      LeafOf(w, kernel, root, plan[i].v);
    }
    forall u: nat | Key(0, u) in w'.spaces[root] ensures Listed(plan', u) {
      assert Listed(plan, u);
      var i :| 0 <= i < |plan| && plan[i].v == u;
      assert plan'[i].v == u;
    }
  }

  // ---------------------------------------------------------------- placement

  lemma {:induction false} SmallPowers(n: nat)
    requires Elf.PowerOfTwo(n) && n <= 65536
    ensures n in {1, 2, 4, 8, 16, 32, 64, 128, 256, 512, 1024, 2048, 4096, 8192, 16384, 32768, 65536}
  {
    if n > 1 { SmallPowers(n / 2); }
  }

  /** The image's alignment is one image_bias takes. */
  lemma {:induction false} AlignmentFine(phs: seq<Elf.Ph>, pie: bool, len: nat, base: Elf.u64, limit: Elf.u64)
    requires forall i :: 0 <= i < |phs| ==> Elf.PhOk(phs[i], pie, len, base, limit)
    ensures Elf.PowerOfTwo(Elf.Alignment(phs) as nat) && (pie ==> Elf.Alignment(phs) <= 65536)
  {
    if phs != [] {
      AlignmentFine(phs[..|phs| - 1], pie, len, base, limit);
      assert Elf.PhOk(phs[|phs| - 1], pie, len, base, limit);
    }
  }

  /** image_bias: the code bias moved up to the image's alignment; its assertion holds of every accepted image. */
  method ImageBias(bias: nat, alignment: nat) returns (r: nat)
    requires Elf.PowerOfTwo(alignment) && 4096 <= alignment <= 65536
    ensures bias * FRAME_SIZE < r * FRAME_SIZE <= bias * FRAME_SIZE + alignment && r * FRAME_SIZE % alignment == 0
  {
    SmallPowers(alignment);
    var bytes := bias * FRAME_SIZE;
    var moved := bytes - bytes % alignment + alignment;
    BiasMoved(bytes, alignment);
    r := moved / FRAME_SIZE;
  }

  lemma BiasMoved(b: nat, a: nat)
    requires a in {4096, 8192, 16384, 32768, 65536}
    ensures (b - b % a + a) % FRAME_SIZE == 0 && (b - b % a + a) % a == 0 && b < b - b % a + a <= b + a
  {
    var q := b / a + 1;
    MovedIs(b, a);
    DivMod(a * q, a, q, 0);
    if a == 4096 { DivMod(a * q, 4096, q, 0); }
    else if a == 8192 { DivMod(a * q, 4096, 2 * q, 0); }
    else if a == 16384 { DivMod(a * q, 4096, 4 * q, 0); }
    else if a == 32768 { DivMod(a * q, 4096, 8 * q, 0); }
    else { DivMod(a * q, 4096, 16 * q, 0); }
  }

  lemma MovedIs(b: nat, a: nat)
    requires a > 0
    ensures b - b % a + a == a * (b / a + 1) && 0 <= b % a < a
  {}

  /** The pieces of an accepted image lie in the lower half of the window, apart from each other. */
  ghost predicate Fits(ps: seq<Piece>, bias: nat) { Once(ps) && forall i: nat :: i < |ps| ==> PieceFits(ps[i], bias) }

  ghost predicate PieceFits(p: Piece, bias: nat)
  {
    BASE_PAGE <= bias + p.first && bias + p.first + p.count <= LIMIT_PAGE && !(p.seg.writable && p.seg.executable)
  }

  lemma SegmentFits(s: Elf.Segment, pie: bool, len: nat, bias: nat)
    requires Elf.SegmentOk(s, pie, len, USER_BASE, IMAGE_LIMIT)
      && if pie then BASE_PAGE < bias <= BASE_PAGE + 0x200_0010 else bias == 0
    ensures PieceFits(PieceOf(s), bias)
  {}

  // ---------------------------------------------------------------- the segments

  ghost predicate LowAt(all: seq<PagePlan>, k: nat)
  {
    k < |all| ==> BASE_PAGE <= all[k].v < LIMIT_PAGE && !(all[k].writable && all[k].executable)
  }

  /**
    Every planned page is in the lower half of the window and not both writable and executable; no
    two are the same page.
   */
  ghost predicate Sound(all: seq<PagePlan>) { Distinct(all) && forall k: nat :: LowAt(all, k) }

  lemma PlanSound(b: seq<byte>, m: Elf.Image, bias: nat, f: Filler, ps: seq<Piece>, all: seq<PagePlan>)
    requires f == Loader(b, m, bias) && Fits(ps, bias) && all == ImagePlan(f, ps, |ps|)
    ensures Sound(all)
  {
    LoaderBiased(b, m, bias);
    PlanDistinct(f, bias, ps, all);
    forall k: nat ensures LowAt(all, k) {
      if k < |all| {
        var i, page := ImageAt(f, ps, |ps|, k);
        assert PieceFits(ps[i], bias);
      }
    }
  }

  lemma LoaderBiased(b: seq<byte>, m: Elf.Image, bias: nat)
    ensures Biased(Loader(b, m, bias), bias)
  {}

  lemma Unlisted(all: seq<PagePlan>, k: nat)
    requires Sound(all) && k < |all|
    ensures !Listed(all[..k], all[k].v) && all[..k] + [all[k]] == all[..k + 1] && InWindow(all[k].v)
  {
    forall i | 0 <= i < k ensures all[..k][i].v != all[k].v { assert DistinctAt(all, i, k); }
    assert LowAt(all, k);
    WindowPages(all[k].v);
  }

  // ---------------------------------------------------------------- the segments

  ghost predicate FillIs(f: Filler, b: seq<byte>, m: Elf.Image, bias: nat, seg: Elf.Segment, page: nat)
  {
    f(seg, page) == SegPage(b, m, seg, bias, page)
  }

  ghost predicate Fills(f: Filler, b: seq<byte>, m: Elf.Image, bias: nat)
  {
    forall seg: Elf.Segment, page: nat :: FillIs(f, b, m, bias, seg, page)
  }

  /** The next page of the plan. */
  method PlaceNext(s: Spaces, ghost w: World, root: nat, b: seq<byte>, m: Elf.Image, bias: nat, seg: Elf.Segment,
      page: nat, ghost f: Filler, ghost all: seq<PagePlan>, ghost k: nat) returns (r: MapResult)
    requires Fills(f, b, m, bias) && Sound(all) && k < |all| && all[k] == f(seg, page) && Loading(s, w, root, all[..k])
    modifies s`owner, s`spaces, s.fa, s.fa.used, s.fa.zeroed
    ensures s.Valid() && root in s.spaces && Evolves(w, s.W(), root) && !r.AlreadyMapped?
    ensures r.Mapped? ==> Loading(s, w, root, all[..k + 1])
    ensures r.OutOfMemory? ==> |w.free| < 1 + 4 * |all|
  {
    Unlisted(all, k);
    var data, offset, writable := PageData(b, m, bias, seg, page, f);
    r := Place(s, w, root, all[..k], bias + page, data, offset, writable, seg.executable);
  }

  /** The file bytes for a page, where they go in it, and whether it may be written. */
  method PageData(b: seq<byte>, m: Elf.Image, bias: nat, seg: Elf.Segment, page: nat, ghost f: Filler)
      returns (data: seq<byte>, offset: nat, writable: bool)
    requires Fills(f, b, m, bias)
    ensures offset <= FRAME_SIZE
      && f(seg, page) == PagePlan(bias + page, Copied(data, offset), writable, seg.executable)
  {
    assert FillIs(f, b, m, bias, seg, page);
    data, offset, writable := SegData(b, seg, page), SegOffset(seg, page), seg.writable && !ReadOnly(m, page);
  }

  /** The plan has segment `j`'s pages from place `start` on. */
  ghost predicate Follows(f: Filler, all: seq<PagePlan>, start: nat, p: Piece, n: nat)
  {
    n < p.count ==> start + n < |all| && all[start + n] == f(p.seg, p.first + n)
  }

  method PlaceSegment(s: Spaces, ghost w: World, root: nat, b: seq<byte>, m: Elf.Image, bias: nat, p: Piece,
      ghost f: Filler, ghost all: seq<PagePlan>, ghost start: nat) returns (r: MapResult)
    requires Sound(all) && start + p.count <= |all| && Fills(f, b, m, bias)
      && (forall n: nat :: Follows(f, all, start, p, n)) && Loading(s, w, root, all[..start])
    modifies s`owner, s`spaces, s.fa, s.fa.used, s.fa.zeroed
    ensures s.Valid() && root in s.spaces && Evolves(w, s.W(), root) && !r.AlreadyMapped?
    ensures r.Mapped? ==> Loading(s, w, root, all[..start + p.count])
    ensures r.OutOfMemory? ==> |w.free| < 1 + 4 * |all|
  {
    r := Mapped;
    for n := 0 to p.count
      invariant r.Mapped? && Loading(s, w, root, all[..start + n])
    {
      assert Follows(f, all, start, p, n);
      r := PlaceNext(s, w, root, b, m, bias, p.seg, p.first + n, f, all, start + n);
      if !r.Mapped? { return; }
    }
  }

  lemma SegmentFollows(f: Filler, segs: seq<Elf.Segment>, ps: seq<Piece>, all: seq<PagePlan>, j: nat)
    requires ps == Pieces(segs) && all == ImagePlan(f, ps, |ps|) && j < |ps|
    ensures ps[j] == PieceOf(segs[j]) && Start(ps, j + 1) == Start(ps, j) + ps[j].count <= |all|
      && forall n: nat :: Follows(f, all, Start(ps, j), ps[j], n)
  {
    PiecesAt(segs, j);
    StartGrows(ps, j + 1);
    StartIs(f, ps, |ps|);
    forall n: nat
      ensures Follows(f, all, Start(ps, j), ps[j], n)
    {
      if n < ps[j].count { PlaceOf(f, ps, |ps|, j, n, Start(ps, j) + n); }
    }
  }

  lemma {:induction false} StartGrows(ps: seq<Piece>, j: nat)
    requires j <= |ps|
    ensures Start(ps, j) <= Start(ps, |ps|)
    decreases |ps| - j
  {
    if j < |ps| { StartGrows(ps, j + 1); }
  }

  method PlaceImage(s: Spaces, ghost w: World, root: nat, b: seq<byte>, m: Elf.Image, bias: nat, ghost f: Filler,
      ghost ps: seq<Piece>, ghost all: seq<PagePlan>) returns (r: MapResult)
    requires ps == Pieces(m.segments) && Fills(f, b, m, bias) && all == ImagePlan(f, ps, |ps|) && Sound(all)
      && Loading(s, w, root, [])
    modifies s`owner, s`spaces, s.fa, s.fa.used, s.fa.zeroed
    ensures s.Valid() && root in s.spaces && Evolves(w, s.W(), root) && !r.AlreadyMapped?
    ensures r.Mapped? ==> Loading(s, w, root, all)
    ensures r.OutOfMemory? ==> |w.free| < 1 + 4 * |all|
  {
    r := Mapped;
    assert all[..0] == [];
    for j := 0 to |m.segments|
      invariant r.Mapped? && Start(ps, j) <= |all| && Loading(s, w, root, all[..Start(ps, j)])
    {
      SegmentFollows(f, m.segments, ps, all, j);
      r := PlaceSegment(s, w, root, b, m, bias, PieceOf(m.segments[j]), f, all, Start(ps, j));
      if !r.Mapped? { return; }
    }
    StartIs(f, ps, |ps|);
    assert all[..|all|] == all;
  }

  // ---------------------------------------------------------------- the relocations

  /** A relocation's target is an aligned word of a planned page that cannot be executed. */
  ghost predicate Applies(all: seq<PagePlan>, bias: nat, f: Fix, k: nat)
  {
    FixOk(f) && k < |all| && all[k].v == bias + f.target / FRAME_SIZE && !all[k].executable
  }

  lemma {:induction false} FixedKeeps(bias: nat, p: PagePlan, fs: seq<Fix>)
    ensures var q := FixedPage(Fixer(bias), p, fs);
      q.v == p.v && q.writable == p.writable && q.executable == p.executable
  {
    if fs != [] {
      var n := |fs| - 1;
      FixedKeeps(bias, p, fs[..n]);
      assert FixedPage(Fixer(bias), p, fs) == Patch(FixedPage(Fixer(bias), p, fs[..n]),
        bias * FRAME_SIZE + fs[n].target, fs[n].word);
    }
  }

  /** The address lies in the page it should, eight bytes before its end at the latest. */
  lemma TargetAt(bias: nat, t: nat)
    requires t % 8 == 0
    ensures (bias * FRAME_SIZE + t) / FRAME_SIZE == bias + t / FRAME_SIZE && (bias * FRAME_SIZE + t) % 8 == 0
  {}

  method ApplyFix(s: Spaces, ghost w: World, root: nat, bias: nat, f: Fix, ghost all: seq<PagePlan>,
      ghost done: seq<Fix>, ghost k: nat) returns (ok: bool)
    requires Sound(all) && Applies(all, bias, f, k) && Loading(s, w, root, Relocated(Fixer(bias), all, done))
    modifies s.fa`mem
    ensures ok && Loading(s, w, root, PatchAll(Fixer(bias), Relocated(Fixer(bias), all, done), f))
  {
    ghost var w1, plan := s.W(), Relocated(Fixer(bias), all, done);
    RelocatedAt(Fixer(bias), all, done, k);
    FixedKeeps(bias, all[k], done);
    assert PlanAt(w1, root, plan[k]) && LowAt(all, k);
    TargetAt(bias, f.target);
    WindowPages(bias + f.target / FRAME_SIZE);
    ok := Relocate(s, root, bias * FRAME_SIZE + f.target, f.word);
    EvolvesTwice(w, w1, s.W(), root);
    LaidPatched(w1, s.W(), s.kernel, root, plan, bias, f, bias * FRAME_SIZE + f.target);
  }

  ghost predicate AppliesAt(all: seq<PagePlan>, bias: nat, fs: seq<Fix>, i: nat)
  {
    i < |fs| ==> exists k: nat :: Applies(all, bias, fs[i], k)
  }

  method ReadFix(b: seq<byte>, m: Elf.Image, bias: nat, i: nat, ghost fs: seq<Fix>) returns (f: Fix)
    requires i < m.relocCount && fs == Fixes(b, m, bias, m.relocCount)
    ensures f == fs[i]
  {
    FixesAt(b, m, bias, m.relocCount, i);
    f := Fix(ElfParse.Target(b, m.relocFile, i) as nat,
      Stored(bias * FRAME_SIZE + ElfParse.Addend(b, m.relocFile, i) as nat));
  }

  method ApplyFixes(s: Spaces, ghost w: World, root: nat, b: seq<byte>, m: Elf.Image, bias: nat,
      ghost all: seq<PagePlan>, ghost fs: seq<Fix>) returns (ok: bool)
    requires Sound(all) && fs == Fixes(b, m, bias, m.relocCount) && (forall i: nat :: AppliesAt(all, bias, fs, i))
      && Loading(s, w, root, all)
    modifies s.fa`mem
    ensures ok && Loading(s, w, root, Relocated(Fixer(bias), all, fs))
  {
    for i := 0 to m.relocCount
      invariant Loading(s, w, root, Relocated(Fixer(bias), all, fs[..i]))
    {
      assert AppliesAt(all, bias, fs, i);
      ghost var k: nat :| Applies(all, bias, fs[i], k);
      var f := ReadFix(b, m, bias, i, fs);
      ok := ApplyFix(s, w, root, bias, f, all, fs[..i], k);
      if !ok { return; }
      assert fs[..i + 1][..i] == fs[..i] && fs[..i + 1][i] == f;
    }
    assert fs[..m.relocCount] == fs;
    ok := true;
  }

  // ---------------------------------------------------------------- accepted images

  /** Everything parse has checked of each relocation. */
  lemma RelocsOk(b: seq<byte>, machine: Elf.u64, base: Elf.u64, limit: Elf.u64, k: nat, m: Elf.Image)
    requires ElfParse.Accepts(b, machine, base, limit, k) && ElfParse.ImageOf(b, k, m)
    ensures m.relocCount > 0 ==> ElfParse.Relative(machine).Some?
    ensures forall i: nat :: i < m.relocCount ==>
      ElfParse.RelocOk(b, m.relocFile, i, m.segments, ElfParse.Relative(machine).value)
  {}

  lemma AcceptedFits(b: seq<byte>, machine: Elf.u64, k: nat, m: Elf.Image, bias: nat)
    requires ElfParse.Accepts(b, machine, USER_BASE, IMAGE_LIMIT, k) && ElfParse.ImageOf(b, k, m)
    requires if m.pie then BASE_PAGE < bias <= BASE_PAGE + 0x200_0010 else bias == 0
    ensures Fits(Pieces(m.segments), bias)
  {
    var ps := Pieces(m.segments);
    Elf.LoadsBounded(ElfParse.Phs(b), m.pie, |b|, USER_BASE, IMAGE_LIMIT);
    OnceFrom(m.segments);
    forall i: nat | i < |ps| ensures PieceFits(ps[i], bias) {
      PiecesAt(m.segments, i);
      SegmentFits(m.segments[i], m.pie, |b|, bias);
    }
  }

  /** A relocation parse accepted applies to a page of the plan. */
  lemma FixApplies(b: seq<byte>, m: Elf.Image, bias: nat, f: Filler, ps: seq<Piece>, all: seq<PagePlan>, fix: Fix,
      target: Elf.u64)
    requires f == Loader(b, m, bias) && ps == Pieces(m.segments) && Fits(ps, bias) && all == ImagePlan(f, ps, |ps|)
    requires FixOk(fix) && fix.target == target as nat && ElfParse.InWritable(m.segments, target)
    ensures exists k: nat :: Applies(all, bias, fix, k)
  {
    var i :| 0 <= i < |m.segments| && ElfParse.WritableAt(m.segments[i], target);
    var page := fix.target / FRAME_SIZE;
    PiecesAt(m.segments, i);
    TargetPage(m.segments[i], target);
    assert PieceFits(ps[i], bias);
    var k := Start(ps, i) + page - ps[i].first;
    PlaceOf(f, ps, |ps|, i, page - ps[i].first, k);
    assert Applies(all, bias, fix, k);
  }

  lemma TargetPage(s: Elf.Segment, target: Elf.u64)
    requires ElfParse.WritableAt(s, target)
    ensures PageOf(s, target as nat / FRAME_SIZE)
  {}

  lemma FixesApply(b: seq<byte>, machine: Elf.u64, k: nat, m: Elf.Image, bias: nat, f: Filler, ps: seq<Piece>,
      all: seq<PagePlan>, fs: seq<Fix>)
    requires ElfParse.Accepts(b, machine, USER_BASE, IMAGE_LIMIT, k) && ElfParse.ImageOf(b, k, m)
    requires f == Loader(b, m, bias) && ps == Pieces(m.segments) && Fits(ps, bias) && all == ImagePlan(f, ps, |ps|)
      && fs == Fixes(b, m, bias, m.relocCount)
    ensures forall i: nat :: AppliesAt(all, bias, fs, i)
  {
    RelocsOk(b, machine, USER_BASE, IMAGE_LIMIT, k, m);
    forall i: nat ensures AppliesAt(all, bias, fs, i) {
      if i < |fs| {
        FixesAt(b, m, bias, m.relocCount, i);
        assert ElfParse.RelocOk(b, m.relocFile, i, m.segments, ElfParse.Relative(machine).value);
        FixApplies(b, m, bias, f, ps, all, fs[i], ElfParse.Target(b, m.relocFile, i));
      }
    }
  }

  // ---------------------------------------------------------------- load_elf

  /** The startup block at the top of the stack. */
  function Block(guard: nat): (block: seq<byte>)
    ensures |block| == 32
  { Stored(STARTUP_MAGIC) + Stored(guard) + Zeroes(16) }

  /** The guard word from a random one: its low byte cleared, and not zero. */
  function Guard(word: Elf.u64): (g: nat) { var g := word as nat / 256 * 256; if g < 256 then 256 else g }

  ghost function ElfImage(b: seq<byte>, m: Elf.Image, bias: nat): (plan: seq<PagePlan>)
  {
    ImagePlan(Loader(b, m, bias), Pieces(m.segments), |m.segments|)
  }

  /** The pages of a loaded image: the segments, relocated, and the stack. */
  ghost function ElfPlan(b: seq<byte>, m: Elf.Image, bias: nat, l: Layout, block: seq<byte>): (plan: seq<PagePlan>)
    requires l.depth <= l.edge && |block| <= FRAME_SIZE
  { Relocated(Fixer(bias), ElfImage(b, m, bias), Fixes(b, m, bias, m.relocCount)) + StackPlan(l.edge, l.depth, block) }

  lemma ImageBelow(bias: nat, all: seq<PagePlan>, fs: seq<Fix>, edge: nat, depth: nat)
    requires Sound(all) && LIMIT_PAGE + depth <= edge
    ensures Below(Relocated(Fixer(bias), all, fs), edge, depth)
  {
    var plan := Relocated(Fixer(bias), all, fs);
    forall k | 0 <= k < |plan| ensures plan[k].v + depth < edge {
      RelocatedAt(Fixer(bias), all, fs, k);
      FixedKeeps(bias, all[k], fs);
      assert LowAt(all, k);
    }
  }

  lemma LoaderFills(b: seq<byte>, m: Elf.Image, bias: nat)
    ensures Fills(Loader(b, m, bias), b, m, bias)
  {
    forall seg: Elf.Segment, page: nat ensures FillIs(Loader(b, m, bias), b, m, bias, seg, page) { }
  }

  /** The closure of load_elf: segments, relocations, stack. */
  method FillElf(s: Spaces, ghost w: World, root: nat, b: seq<byte>, m: Elf.Image, bias: nat, l: Layout,
      block: seq<byte>, ghost f: Filler, ghost ps: seq<Piece>, ghost all: seq<PagePlan>,
      ghost fs: seq<Fix>) returns (r: MapResult)
    requires Loading(s, w, root, []) && Placed(l) && |block| == 32 && Sound(all) && Fills(f, b, m, bias)
      && ps == Pieces(m.segments) && all == ImagePlan(f, ps, |ps|)
    requires fs == Fixes(b, m, bias, m.relocCount) && forall i: nat :: AppliesAt(all, bias, fs, i)
    modifies s`owner, s`spaces, s.fa, s.fa.used, s.fa.zeroed
    ensures s.Valid() && root in s.spaces && Evolves(w, s.W(), root) && !r.AlreadyMapped?
    ensures r.Mapped? ==> Laid(s.W(), root, Relocated(Fixer(bias), all, fs) + StackPlan(l.edge, l.depth, block))
    ensures r.OutOfMemory? ==> |w.free| < 1 + 4 * (|all| + l.depth)
  {
    r := PlaceImage(s, w, root, b, m, bias, f, ps, all);
    if !r.Mapped? { return; }
    var ok := ApplyFixes(s, w, root, b, m, bias, all, fs);
    if !ok { return AlreadyMapped; }
    ImageBelow(bias, all, fs, l.edge, l.depth);
    r := PlaceStack(s, w, root, Relocated(Fixer(bias), all, fs), l.edge, l.depth, block);
  }

  /** The page the image is moved up by: the first multiple of its alignment above the drawn one. */
  ghost predicate BiasOk(m: Elf.Image, l: Layout, bias: nat) {
    if m.pie then
      && 4096 <= m.alignment <= 65536 && bias * FRAME_SIZE % m.alignment as nat == 0
      && l.bias * FRAME_SIZE < bias * FRAME_SIZE <= l.bias * FRAME_SIZE + m.alignment as nat
    else bias == 0
  }

  method PickBias(b: seq<byte>, machine: Elf.u64, m: Elf.Image, l: Layout, ghost k: nat) returns (bias: nat)
    requires ElfParse.Accepts(b, machine, USER_BASE, IMAGE_LIMIT, k) && ElfParse.ImageOf(b, k, m)
    ensures BiasOk(m, l, bias)
  {
    if !m.pie { return 0; }
    AlignmentFine(ElfParse.Phs(b), m.pie, |b|, USER_BASE, IMAGE_LIMIT);
    bias := ImageBias(l.bias, m.alignment as nat);
  }

  /** What an accepted image and its bias give the loader. */
  ghost predicate ReadyToLoad(b: seq<byte>, m: Elf.Image, bias: nat, all: seq<PagePlan>, fs: seq<Fix>) {
    && all == ElfImage(b, m, bias) && fs == Fixes(b, m, bias, m.relocCount) && Sound(all)
    && (forall i: nat :: AppliesAt(all, bias, fs, i)) && Elf.AllApart(m.segments) && forall i: nat :: SegIn(b, m, i)
  }

  ghost predicate SegIn(b: seq<byte>, m: Elf.Image, i: nat) { i < |m.segments| ==> InBytes(b, m.segments[i]) }

  lemma Ready(b: seq<byte>, machine: Elf.u64, k: nat, m: Elf.Image, l: Layout, bias: nat)
    requires ElfParse.Accepts(b, machine, USER_BASE, IMAGE_LIMIT, k) && ElfParse.ImageOf(b, k, m) && Placed(l)
      && BiasOk(m, l, bias)
    ensures ReadyToLoad(b, m, bias, ElfImage(b, m, bias), Fixes(b, m, bias, m.relocCount))
  {
    var f, ps, fs := Loader(b, m, bias), Pieces(m.segments), Fixes(b, m, bias, m.relocCount);
    var all := ImagePlan(f, ps, |ps|);
    AcceptedFits(b, machine, k, m, bias);
    PlanSound(b, m, bias, f, ps, all);
    FixesApply(b, machine, k, m, bias, f, ps, all, fs);
    SegmentsIn(b, machine, k, m);
  }

  lemma SegmentsIn(b: seq<byte>, machine: Elf.u64, k: nat, m: Elf.Image)
    requires ElfParse.Accepts(b, machine, USER_BASE, IMAGE_LIMIT, k) && ElfParse.ImageOf(b, k, m)
    ensures forall i: nat :: SegIn(b, m, i)
  {
    Elf.LoadsBounded(ElfParse.Phs(b), m.pie, |b|, USER_BASE, IMAGE_LIMIT);
    forall i: nat
      ensures SegIn(b, m, i)
    {
      if i < |m.segments| { assert Elf.SegmentOk(m.segments[i], m.pie, |b|, USER_BASE, IMAGE_LIMIT); }
    }
  }

  /** The image accepted, and how far up it goes. */
  ghost predicate Chosen(b: seq<byte>, machine: Elf.u64, k: nat, m: Elf.Image, l: Layout, bias: nat) {
    ElfParse.Accepts(b, machine, USER_BASE, IMAGE_LIMIT, k) && ElfParse.ImageOf(b, k, m) && BiasOk(m, l, bias)
  }

  method Prepare(b: seq<byte>, machine: Elf.u64, l: Layout) returns (m: Option<Elf.Image>, bias: nat, ghost k: nat)
    requires |b| < Elf.U64 && Placed(l)
    ensures m.None? ==> forall k: nat :: !ElfParse.Accepts(b, machine, USER_BASE, IMAGE_LIMIT, k)
    ensures m.Some? ==>
      Chosen(b, machine, k, m.value, l, bias)
      && ReadyToLoad(b, m.value, bias, ElfImage(b, m.value, bias), Fixes(b, m.value, bias, m.value.relocCount))
  {
    bias := 0;
    m, k := ElfParse.Parse(b, machine, USER_BASE, IMAGE_LIMIT);
    if m.None? { return; }
    bias := PickBias(b, machine, m.value, l, k);
    Ready(b, machine, k, m.value, l, bias);
  }

  /**
    load_elf: an image is refused exactly when parse refuses it; an accepted one fails to
    load only for lack of an ID or of frames, and then nothing is left of it; a loaded one
    has exactly the planned pages.
   */
  method LoadElf(s: Spaces, b: seq<byte>, machine: Elf.u64, rotate: nat, draw: (nat, nat, nat),
      word: Elf.u64)
      returns (r: LoadResult, ghost k: nat, ghost m: Option<Elf.Image>, ghost bias: nat)
    requires s.Valid() && rotate < SLOTS && |b| < Elf.U64
    modifies s, s.fa, s.fa.used, s.fa.zeroed
    ensures s.Valid() && !r.Clash? && (r.BadImage? <==> m.None?)
    ensures r.BadImage? ==> forall k: nat :: !ElfParse.Accepts(b, machine, USER_BASE, IMAGE_LIMIT, k)
    ensures m.Some? ==> Chosen(b, machine, k, m.value, Choose(draw.0, draw.1, draw.2), bias)
    ensures r.NoSlots? ==> forall i :: 0 <= i < SLOTS ==> old(s.slots)[i]
    ensures r.NoMemory? ==> m.Some? && |old(s.fa.free)| < 1 + 4 * (|ElfImage(b, m.value, bias)| + STACK_PAGES)
    ensures !r.Loaded? ==> Undone(old(s.W()), s.W()) && s.slots == old(s.slots)
    ensures r.Loaded? ==>
      r.image.space !in old(s.spaces) && r.image.slot < SLOTS && !old(s.slots)[r.image.slot]
      && s.slots == old(s.slots)[r.image.slot := true]
    ensures r.Loaded? ==>
      Evolves(old(s.W()), s.W(), r.image.space)
      && Laid(s.W(), r.image.space, ElfPlan(b, m.value, bias, Choose(draw.0, draw.1, draw.2), Block(Guard(word))))
    ensures r.Loaded? ==>
      r.image.entry == bias * FRAME_SIZE + m.value.entry as nat && StackOf(r.image, Choose(draw.0, draw.1, draw.2))
      && r.image.startup == r.image.stackEdge - 32
    ensures r.Loaded? ==>
      ProgramIn(s.W(), r.image.space, b, m.value, bias, Choose(draw.0, draw.1, draw.2), r.image.startup, word)
  {
    var l := Choose(draw.0, draw.1, draw.2);
    var image, moved;
    image, moved, k := Prepare(b, machine, l);
    m, bias := image, moved;
    if image.None? { return BadImage, k, None, 0; }
    var block := Block(Guard(word));
    r := LoadAt(s, b, image.value, rotate, l, moved, block);
    if r.Loaded? {
      ProgramLoaded(s.W(), s.kernel, r.image.space, b, machine, k, image.value, l, moved, r.image.startup,
        word);
    }
  }

  /** load_elf after parse and placement. */
  method LoadAt(s: Spaces, b: seq<byte>, m: Elf.Image, rotate: nat, l: Layout, bias: nat, block: seq<byte>)
      returns (r: LoadResult)
    requires s.Valid() && rotate < SLOTS && |block| == 32 && Placed(l)
      && ReadyToLoad(b, m, bias, ElfImage(b, m, bias), Fixes(b, m, bias, m.relocCount))
    modifies s, s.fa, s.fa.used, s.fa.zeroed
    ensures s.Valid() && !r.Clash? && !r.BadImage?
    ensures r.NoSlots? ==> forall i :: 0 <= i < SLOTS ==> old(s.slots)[i]
    ensures r.NoMemory? ==> |old(s.fa.free)| < 1 + 4 * (|ElfImage(b, m, bias)| + STACK_PAGES)
    ensures !r.Loaded? ==> Undone(old(s.W()), s.W()) && s.slots == old(s.slots)
    ensures r.Loaded? ==>
      r.image.space !in old(s.spaces) && r.image.slot < SLOTS && !old(s.slots)[r.image.slot]
      && s.slots == old(s.slots)[r.image.slot := true]
    ensures r.Loaded? ==>
      Evolves(old(s.W()), s.W(), r.image.space) && Laid(s.W(), r.image.space, ElfPlan(b, m, bias, l, block))
    ensures r.Loaded? ==>
      r.image.entry == bias * FRAME_SIZE + m.entry as nat && StackOf(r.image, l)
      && r.image.startup == r.image.stackEdge - 32
  {
    ghost var w, slots := s.W(), s.slots;
    r := Begin(s, rotate);
    if !r.Loaded? { return; }
    var img := r.image;
    LoaderFills(b, m, bias);
    var done := FillElf(s, w, img.space, b, m, bias, l, block, Loader(b, m, bias), Pieces(m.segments),
      ElfImage(b, m, bias), Fixes(b, m, bias, m.relocCount));
    if !done.Mapped? {
      Undo(s, img.space, img.slot, w, slots);
      return NoMemory;
    }
    r := Loaded(UserImage(bias * FRAME_SIZE + m.entry as nat, l.pointer, FRAME_SIZE * l.edge, FRAME_SIZE * l.edge - 32,
      img.space, img.slot));
  }

  // ---------------------------------------------------------------- what a loaded program sees

  /** The processor finds page `p`, with these bytes and rights, at its address. */
  ghost predicate Sees(w: World, root: nat, p: PagePlan) {
    var r := Walk(w.mem, root, p.v, TOP.level);
    r.Some? && r.value.frame < |w.mem| && w.mem[r.value.frame] == Data(p.bytes) && r.value.writable == p.writable
      && r.value.noExec == !p.executable
  }

  ghost predicate SeenAt(w: World, root: nat, plan: seq<PagePlan>, j: nat)
  {
    j < |plan| && BASE_PAGE <= plan[j].v < BASE_PAGE + 0x800_0000 ==> Sees(w, root, plan[j])
  }

  /** The processor finds every page of the plan. */
  ghost predicate Seen(w: World, root: nat, plan: seq<PagePlan>) { forall j: nat :: SeenAt(w, root, plan, j) }

  lemma PlanSeen(w: World, kernel: nat, root: nat, plan: seq<PagePlan>)
    requires Held(w, kernel) && Laid(w, root, plan)
    ensures Seen(w, root, plan)
  {
    forall j: nat ensures SeenAt(w, root, plan, j) {
      if j < |plan| && BASE_PAGE <= plan[j].v < BASE_PAGE + 0x800_0000 {
        WindowPages(plan[j].v);
        assert PlanAt(w, root, plan[j]);
        Translates(w, kernel, root, plan[j].v);
      }
    }
  }

  /** What the plan has for a segment's page. */
  lemma PlanMeans(b: seq<byte>, m: Elf.Image, bias: nat, all: seq<PagePlan>, fs: seq<Fix>, i: nat, page: nat, o: nat)
      returns (j: nat)
    requires ReadyToLoad(b, m, bias, all, fs) && i < |m.segments| && PageOf(m.segments[i], page) && o < FRAME_SIZE
    ensures j < |all| && BASE_PAGE <= bias + page < LIMIT_PAGE && InBytes(b, m.segments[i])
    ensures var s, p := m.segments[i], Relocated(Fixer(bias), all, fs)[j];
      && p.v == bias + page && |p.bytes| == FRAME_SIZE
      && p.bytes[o] == RelocByte(fs, page * FRAME_SIZE + o, SegByte(b, s, page * FRAME_SIZE + o))
      && p.writable == (s.writable && !Guarded(m, page)) && p.executable == s.executable
  {
    var ps := Pieces(m.segments);
    assert SegIn(b, m, i);
    PiecesAt(m.segments, i);
    j := Start(ps, i) + page - ps[i].first;
    PlaceOf(Loader(b, m, bias), ps, |ps|, i, page - ps[i].first, j);
    LoaderBiased(b, m, bias);
    assert LowAt(all, j);
    FixesFine(all, bias, fs);
    LoadedByte(b, m, bias, ps, all, fs, i, page, o, j);
  }

  lemma FixesFine(all: seq<PagePlan>, bias: nat, fs: seq<Fix>)
    requires forall i: nat :: AppliesAt(all, bias, fs, i)
    ensures forall i :: 0 <= i < |fs| ==> FixOk(fs[i])
  {
    forall i | 0 <= i < |fs| ensures FixOk(fs[i]) { assert AppliesAt(all, bias, fs, i); }
  }

  /** An ELF program loaded and released again: every frame and the ID are back. */
  method LoadElfThenRelease(s: Spaces, b: seq<byte>, machine: Elf.u64, rotate: nat, draw: (nat, nat, nat),
      word: Elf.u64)
    requires s.Valid() && rotate < SLOTS && |b| < Elf.U64
    modifies s, s.fa, s.fa.used, s.fa.zeroed
    ensures s.Valid() && Undone(old(s.W()), s.W()) && s.slots == old(s.slots)
  {
    ghost var w, slots := s.W(), s.slots;
    var r, _, _, _ := LoadElf(s, b, machine, rotate, draw, word);
    if r.Loaded? { Undo(s, r.image.space, r.image.slot, w, slots); }
  }

  /**
    What a loaded program sees at every address of its segments' pages: the file's bytes,
    zeroes after them, and the words of the relocations, with the segment's rights.
   */
  lemma ProgramSees(w: World, root: nat, b: seq<byte>, m: Elf.Image, l: Layout, bias: nat, block: seq<byte>,
      fs: seq<Fix>, i: nat, page: nat, o: nat) returns (p: PagePlan)
    requires l.depth <= l.edge && |block| <= FRAME_SIZE && ReadyToLoad(b, m, bias, ElfImage(b, m, bias), fs)
      && Seen(w, root, ElfPlan(b, m, bias, l, block))
    requires i < |m.segments| && PageOf(m.segments[i], page) && o < FRAME_SIZE
    ensures Sees(w, root, p) && p.v == bias + page && |p.bytes| == FRAME_SIZE && InBytes(b, m.segments[i])
    ensures p.bytes[o] == RelocByte(fs, page * FRAME_SIZE + o, SegByte(b, m.segments[i], page * FRAME_SIZE + o))
    ensures p.writable == (m.segments[i].writable && !Guarded(m, page)) && p.executable == m.segments[i].executable
  {
    var j := PlanMeans(b, m, bias, ElfImage(b, m, bias), fs, i, page, o);
    p := Relocated(Fixer(bias), ElfImage(b, m, bias), fs)[j];
    assert SeenAt(w, root, ElfPlan(b, m, bias, l, block), j);
  }

  /** The startup block at the end of the first page, and zeroes. */
  function StackByte(block: seq<byte>, i: nat, o: nat): (x: byte)
    requires |block| <= FRAME_SIZE && o < FRAME_SIZE
  { if i == 1 && o >= FRAME_SIZE - |block| then block[o - (FRAME_SIZE - |block|)] else 0 }

  /** The stack it sees: writable zeroes, with the startup block where `startup` points. */
  lemma StackSeen(w: World, root: nat, b: seq<byte>, m: Elf.Image, l: Layout, bias: nat, block: seq<byte>, i: nat,
      o: nat) returns (p: PagePlan)
    requires Placed(l) && |block| <= FRAME_SIZE && Seen(w, root, ElfPlan(b, m, bias, l, block)) && 1 <= i <= l.depth
      && o < FRAME_SIZE
    ensures Sees(w, root, p) && p.v == l.edge - i && p.writable && !p.executable && |p.bytes| == FRAME_SIZE
    ensures p.bytes[o] == StackByte(block, i, o)
  {
    var all := Relocated(Fixer(bias), ElfImage(b, m, bias), Fixes(b, m, bias, m.relocCount));
    p := StackPage(l.edge, i, block);
    StackAfter(w, root, all, l.edge, l.depth, block, ElfPlan(b, m, bias, l, block), i);
  }

  lemma StackAfter(w: World, root: nat, all: seq<PagePlan>, edge: nat, n: nat, block: seq<byte>, plan: seq<PagePlan>,
      i: nat)
    requires BASE_PAGE + n <= edge <= BASE_PAGE + 0x800_0000 && |block| <= FRAME_SIZE
      && plan == all + StackPlan(edge, n, block) && Seen(w, root, plan) && 1 <= i <= n
    ensures Sees(w, root, StackPage(edge, i, block))
  {
    StackPlanAt(edge, n, block, i - 1);
    assert plan[|all| + i - 1] == StackPage(edge, i, block);
    assert SeenAt(w, root, plan, |all| + i - 1);
  }

  /** A planned page is a segment's or the stack's, and never both writable and executable. */
  lemma PlanOnly(b: seq<byte>, m: Elf.Image, bias: nat, l: Layout, block: seq<byte>, all: seq<PagePlan>, fs: seq<Fix>,
      plan: seq<PagePlan>, i: nat)
    requires ReadyToLoad(b, m, bias, all, fs) && Placed(l) && |block| == 32
      && plan == Relocated(Fixer(bias), all, fs) + StackPlan(l.edge, l.depth, block) && i < |plan|
    ensures !(plan[i].writable && plan[i].executable)
    ensures InImage(m, bias, plan[i].v) || l.edge - l.depth <= plan[i].v < l.edge
  {
    if i < |all| {
      RelocatedAt(Fixer(bias), all, fs, i);
      FixedKeeps(bias, all[i], fs);
      assert LowAt(all, i);
      LoaderBiased(b, m, bias);
      var j, page := ImageAt(Loader(b, m, bias), Pieces(m.segments), |m.segments|, i);
      PiecesAt(m.segments, j);
    } else {
      StackPlanAt(l.edge, l.depth, block, i - |all|);
    }
  }

  ghost predicate InImage(m: Elf.Image, bias: nat, v: nat)
  {
    v >= bias && exists i :: 0 <= i < |m.segments| && PageOf(m.segments[i], v - bias)
  }

  /** Nothing else of the window is mapped, and no reachable page is both writable and executable. */
  lemma ProgramSeesOnly(w: World, kernel: nat, root: nat, b: seq<byte>, m: Elf.Image, l: Layout, bias: nat,
      block: seq<byte>, fs: seq<Fix>, v: nat)
    requires Held(w, kernel) && Placed(l) && |block| == 32 && ReadyToLoad(b, m, bias, ElfImage(b, m, bias), fs)
      && Laid(w, root, ElfPlan(b, m, bias, l, block))
    requires InWindow(v) && Walk(w.mem, root, v, TOP.level).Some?
    ensures InImage(m, bias, v) || l.edge - l.depth <= v < l.edge
    ensures !(Walk(w.mem, root, v, TOP.level).value.writable && !Walk(w.mem, root, v, TOP.level).value.noExec)
  {
    var plan := ElfPlan(b, m, bias, l, block);
    Translates(w, kernel, root, v);
    assert Listed(plan, v);
    var i :| 0 <= i < |plan| && plan[i].v == v;
    assert PlanAt(w, root, plan[i]);
    PlanOnly(b, m, bias, l, block, ElfImage(b, m, bias), fs, plan, i);
  }

  // ---------------------------------------------------------------- the program as a whole

  /** The processor reads `x` in byte `o` of page `v`, which it may write to or execute as given. */
  ghost predicate ReadsByte(w: World, root: nat, v: nat, o: nat, x: byte, writable: bool, executable: bool) {
    var r := Walk(w.mem, root, v, TOP.level);
    && r.Some? && r.value.frame < |w.mem| && r.value.writable == writable && r.value.noExec == !executable
    && var f := w.mem[r.value.frame]; f.Data? && o < |f.bytes| && f.bytes[o] == x
  }

  ghost predicate ReadsWord(w: World, root: nat, v: nat, o: nat, x: nat) {
    var r := Walk(w.mem, root, v, TOP.level);
    && r.Some? && r.value.frame < |w.mem|
    && var f := w.mem[r.value.frame]; f.Data? && o + 8 <= |f.bytes| && Elf.Rd64(f.bytes, o) as nat == x
  }

  /** Byte `o` of page `page` of segment `i`, with the relocations `fs`. */
  ghost predicate SegmentReads(w: World, root: nat, b: seq<byte>, m: Elf.Image, bias: nat, fs: seq<Fix>, i: nat,
      page: nat, o: nat)
  {
    i < |m.segments| && PageOf(m.segments[i], page) && o < FRAME_SIZE ==>
      InBytes(b, m.segments[i])
      && var s, a := m.segments[i], page * FRAME_SIZE + o;
         ReadsByte(w, root, bias + page, o, RelocByte(fs, a, SegByte(b, s, a)), s.writable && !Guarded(m, page),
           s.executable)
  }

  /** No later relocation has the target of relocation `r`. */
  ghost predicate LastFor(b: seq<byte>, m: Elf.Image, r: nat) {
    r < m.relocCount && forall q :: r < q < m.relocCount ==>
      ElfParse.Target(b, m.relocFile, q) != ElfParse.Target(b, m.relocFile, r)
  }

  /** The word relocation `r` is for: its addend, moved with the image. */
  ghost predicate RelocReads(w: World, root: nat, b: seq<byte>, m: Elf.Image, bias: nat, r: nat) {
    LastFor(b, m, r) ==> var t := ElfParse.Target(b, m.relocFile, r) as nat;
      ReadsWord(w, root, bias + t / FRAME_SIZE, t % FRAME_SIZE, RelocValue(b, m, bias, r))
  }

  /** Byte `o` of the stack page `i` below its edge. */
  ghost predicate StackReads(w: World, root: nat, l: Layout, block: seq<byte>, i: nat, o: nat) {
    1 <= i <= l.depth && i <= l.edge && o < FRAME_SIZE && |block| <= FRAME_SIZE ==>
      ReadsByte(w, root, l.edge - i, o, StackByte(block, i, o), true, false)
  }

  /** Page `v` of the window: one of the image or the stack, if it is mapped, and not both writable and executable. */
  ghost predicate OnlyReads(w: World, root: nat, m: Elf.Image, bias: nat, l: Layout, v: nat) {
    InWindow(v) && Walk(w.mem, root, v, TOP.level).Some? ==>
      && (InImage(m, bias, v) || l.edge - l.depth <= v < l.edge)
      && !(Walk(w.mem, root, v, TOP.level).value.writable && !Walk(w.mem, root, v, TOP.level).value.noExec)
  }

  /**
    What the program finds in its window: at every address of its segments the file's bytes,
    zeroes after them and the relocated words, with the segment's rights; its stack; nothing else.
   */
  ghost predicate Runs(w: World, root: nat, b: seq<byte>, m: Elf.Image, bias: nat, l: Layout, block: seq<byte>) {
    && (forall i: nat, page: nat, o: nat ::
          SegmentReads(w, root, b, m, bias, Fixes(b, m, bias, m.relocCount), i, page, o))
    && (forall r: nat :: RelocReads(w, root, b, m, bias, r))
    && (forall i: nat, o: nat :: StackReads(w, root, l, block, i, o))
    && (forall v: nat :: OnlyReads(w, root, m, bias, l, v))
  }

  /** The words of the startup block: its number, a guard drawn at random and never less than 256, and two zeroes. */
  ghost predicate StartupWord(w: World, root: nat, at: nat, word: Elf.u64, j: nat) {
    j < 4 ==> ReadsWord(w, root, at / 4096, at % 4096 + 8 * j,
      if j == 0 then 0x4d4d_5552_544c_0001
      else if j > 1 then 0
      else if word < 256 then 256 else word as nat - word as nat % 256)
  }

  ghost predicate StartupReads(w: World, root: nat, at: nat, word: Elf.u64) {
    forall j: nat :: StartupWord(w, root, at, word, j)
  }

  lemma StackWord(w: World, root: nat, l: Layout, block: seq<byte>, j: nat)
    requires 1 <= l.depth <= l.edge && |block| == 32 && j < 4
      && forall i: nat, o: nat :: StackReads(w, root, l, block, i, o)
    ensures ReadsWord(w, root, l.edge - 1, 4064 + 8 * j, Elf.Rd64(block[8 * j..8 * j + 8], 0) as nat)
  {
    var word, at := block[8 * j..8 * j + 8], 4064 + 8 * j;
    forall i | 0 <= i < 8 ensures ReadsByte(w, root, l.edge - 1, at + i, word[i], true, false) {
      assert StackReads(w, root, l, block, 1, at + i);
    }
    BytesWord(w, root, l.edge - 1, at, word, true, false);
  }

  ghost predicate BlockHolds(block: seq<byte>, guard: nat) {
    && |block| == 32 && Elf.Rd64(block[0..8], 0) as nat == 0x4d4d_5552_544c_0001
    && Elf.Rd64(block[8..16], 0) as nat == guard
    && Elf.Rd64(block[16..24], 0) as nat == 0 && Elf.Rd64(block[24..32], 0) as nat == 0
  }

  lemma BlockWords(guard: nat)
    requires guard < Elf.U64
    ensures BlockHolds(Block(guard), guard)
  {
    var block := Block(guard);
    StoredBack(STARTUP_MAGIC);
    StoredBack(guard);
    assert block[0..8] == Stored(STARTUP_MAGIC) && block[8..16] == Stored(guard);
    assert block[16..24] == Zeroes(8) && block[24..32] == Zeroes(8);
  }

  lemma StartupRead(w: World, root: nat, l: Layout, block: seq<byte>, word: Elf.u64)
    requires Placed(l) && BlockHolds(block, Guard(word))
      && forall i: nat, o: nat :: StackReads(w, root, l, block, i, o)
    ensures StartupReads(w, root, 4096 * l.edge - 32, word)
  {
    var at := 4096 * l.edge - 32;
    assert at / 4096 == l.edge - 1 && at % 4096 == 4064;
    forall j: nat ensures StartupWord(w, root, at, word, j) {
      if j < 4 { StackWord(w, root, l, block, j); }
    }
  }

  /** No relocation stores at `a`. */
  ghost predicate Unmoved(b: seq<byte>, m: Elf.Image, a: nat) {
    forall r :: 0 <= r < m.relocCount ==>
      !(ElfParse.Target(b, m.relocFile, r) as nat <= a < ElfParse.Target(b, m.relocFile, r) as nat + 8)
  }

  /** Some page of the segment described by the header at `at` has this number. */
  ghost predicate HeaderPage(b: seq<byte>, h: nat, at: nat, page: int) {
    ElfHeaders.Describes(b, h, at, 1)
      && Elf.Rd64(b, at + 16) as int / 4096 <= page
      && 4096 * page < Elf.Rd64(b, at + 16) as int + Elf.Rd64(b, at + 40) as int
  }

  ghost predicate OfHeader(b: seq<byte>, page: int) { exists h: nat, at: nat :: HeaderPage(b, h, at, page) }

  /** A program header says that this page must not be written to once the program is loaded. */
  ghost predicate Sealed(b: seq<byte>, page: nat) { exists h: nat, at: nat :: ElfHeaders.Protected(b, h, at, page) }

  /** The page at image address `a` has the rights its load header asks for. */
  ghost predicate HeaderRights(w: World, root: nat, b: seq<byte>, bias: nat, at: nat, a: nat)
    requires at + 56 <= |b|
  {
    var r := Walk(w.mem, root, bias + a / 4096, TOP.level);
    && r.Some? && (r.value.writable <==> Elf.Rd32(b, at + 4) / 2 % 2 == 1 && !Sealed(b, a / 4096))
    && (r.value.noExec <==> Elf.Rd32(b, at + 4) % 2 == 0)
  }

  /** The byte at image address `a`: the file's, or zero past the part that the file holds. */
  ghost predicate HeaderByte(w: World, root: nat, b: seq<byte>, bias: nat, at: nat, a: nat)
    requires at + 56 <= |b|
  {
    var r := Walk(w.mem, root, bias + a / 4096, TOP.level);
    var vaddr, offset, filesz := Elf.Rd64(b, at + 16) as nat, Elf.Rd64(b, at + 8) as nat, Elf.Rd64(b, at + 32) as nat;
    && offset + filesz <= |b| && r.Some? && r.value.frame < |w.mem|
    && w.mem[r.value.frame].Data? && a % 4096 < |w.mem[r.value.frame].bytes|
    && w.mem[r.value.frame].bytes[a % 4096] == if vaddr <= a < vaddr + filesz then b[offset + a - vaddr] else 0
  }

  /** What the processor finds at image address `a` of the load header at `at`. */
  ghost predicate HeaderReads(w: World, root: nat, b: seq<byte>, m: Elf.Image, bias: nat, h: nat, at: nat, a: nat) {
    HeaderPage(b, h, at, a / 4096) ==>
      HeaderRights(w, root, b, bias, at, a) && (Unmoved(b, m, a) ==> HeaderByte(w, root, b, bias, at, a))
  }

  /** A page of the window that is no load header's and not the stack's is not mapped. */
  ghost predicate HeadersOnly(w: World, root: nat, b: seq<byte>, bias: nat, l: Layout, v: nat) {
    InWindow(v) && Walk(w.mem, root, v, TOP.level).Some? ==>
      l.edge - l.depth <= v < l.edge || OfHeader(b, v - bias)
  }

  /** The program in memory is what the file's own headers say. */
  ghost predicate FileRuns(w: World, root: nat, b: seq<byte>, m: Elf.Image, bias: nat, l: Layout) {
    && (forall h: nat, at: nat, a: nat :: HeaderReads(w, root, b, m, bias, h, at, a))
    && forall v: nat :: HeadersOnly(w, root, b, bias, l, v)
  }

  /** Everything a loaded program finds in its window. */
  ghost predicate ProgramIn(w: World, root: nat, b: seq<byte>, m: Elf.Image, bias: nat, l: Layout, startup: nat,
      word: Elf.u64)
  {
    Runs(w, root, b, m, bias, l, Block(Guard(word))) && FileRuns(w, root, b, m, bias, l)
      && StartupReads(w, root, startup, word)
  }

  lemma SealedPage(b: seq<byte>, machine: Elf.u64, k: nat, m: Elf.Image, page: nat)
    requires ElfParse.Accepts(b, machine, USER_BASE, IMAGE_LIMIT, k) && ElfParse.ImageOf(b, k, m)
    ensures Guarded(m, page) <==> Sealed(b, page)
  {
    if Sealed(b, page) {
      var h: nat, at: nat :| ElfHeaders.Protected(b, h, at, page);
      ElfHeaders.RelroIs(b, machine, USER_BASE, IMAGE_LIMIT, k, m, h, at);
      forall a: nat | page * FRAME_SIZE <= a < (page + 1) * FRAME_SIZE ensures InRegion(m.relro.value, a) {
        assert ElfHeaders.Covered(b, at, a);
      }
    }
    if Guarded(m, page) {
      var h, at := ElfHeaders.RelroHas(b, machine, USER_BASE, IMAGE_LIMIT, k, m);
      ElfHeaders.RelroIs(b, machine, USER_BASE, IMAGE_LIMIT, k, m, h, at);
      forall a: nat | 4096 * page <= a < 4096 * page + 4096 ensures ElfHeaders.Covered(b, at, a) {
        assert InRegion(m.relro.value, a);
      }
      assert ElfHeaders.Protected(b, h, at, page);
    }
  }

  lemma {:induction false} Untouched(fs: seq<Fix>, a: nat, first: byte)
    requires forall i :: 0 <= i < |fs| ==> !(fs[i].target <= a < fs[i].target + |fs[i].word|)
    ensures RelocByte(fs, a, first) == first
  {
    if fs != [] { Untouched(fs[..|fs| - 1], a, first); }
  }

  lemma UnmovedByte(b: seq<byte>, m: Elf.Image, bias: nat, a: nat, first: byte)
    requires Unmoved(b, m, a)
    ensures RelocByte(Fixes(b, m, bias, m.relocCount), a, first) == first
  {
    var fs := Fixes(b, m, bias, m.relocCount);
    forall r | 0 <= r < |fs| ensures !(fs[r].target <= a < fs[r].target + |fs[r].word|) {
      FixesAt(b, m, bias, m.relocCount, r);
    }
    Untouched(fs, a, first);
  }

  /** Segment `i` is the one of the load header at `at`. */
  ghost predicate SegmentAt(b: seq<byte>, m: Elf.Image, i: nat, at: nat) {
    && at + 56 <= |b| && i < |m.segments|
    && m.segments[i] == Elf.Segment(Elf.Rd64(b, at + 16), Elf.Rd64(b, at + 40), Elf.Rd64(b, at + 8),
      Elf.Rd64(b, at + 32), Elf.Rd32(b, at + 4) / 2 % 2 == 1, Elf.Rd32(b, at + 4) % 2 == 1)
  }

  lemma HeaderReadOf(w: World, root: nat, b: seq<byte>, m: Elf.Image, bias: nat, i: nat, at: nat, a: nat)
    requires SegmentAt(b, m, i, at) && PageOf(m.segments[i], a / FRAME_SIZE)
    requires Guarded(m, a / FRAME_SIZE) <==> Sealed(b, a / 4096)
    requires SegmentReads(w, root, b, m, bias, Fixes(b, m, bias, m.relocCount), i, a / FRAME_SIZE, a % FRAME_SIZE)
    ensures HeaderRights(w, root, b, bias, at, a) && (Unmoved(b, m, a) ==> HeaderByte(w, root, b, bias, at, a))
  {
    if Unmoved(b, m, a) { UnmovedByte(b, m, bias, a, SegByte(b, m.segments[i], a)); }
  }

  lemma HeaderRead(w: World, root: nat, b: seq<byte>, machine: Elf.u64, k: nat, m: Elf.Image, bias: nat, h: nat,
      at: nat, a: nat)
    requires ElfParse.Accepts(b, machine, USER_BASE, IMAGE_LIMIT, k) && ElfParse.ImageOf(b, k, m)
    requires forall i: nat, page: nat, o: nat ::
      SegmentReads(w, root, b, m, bias, Fixes(b, m, bias, m.relocCount), i, page, o)
    ensures HeaderReads(w, root, b, m, bias, h, at, a)
  {
    if HeaderPage(b, h, at, a / 4096) {
      var i := ElfHeaders.LoadIs(b, machine, USER_BASE, IMAGE_LIMIT, k, m, h, at);
      SealedPage(b, machine, k, m, a / 4096);
      HeaderReadOf(w, root, b, m, bias, i, at, a);
    }
  }

  lemma HeaderOnly(w: World, root: nat, b: seq<byte>, machine: Elf.u64, k: nat, m: Elf.Image, bias: nat, l: Layout,
      v: nat)
    requires ElfParse.Accepts(b, machine, USER_BASE, IMAGE_LIMIT, k) && ElfParse.ImageOf(b, k, m)
      && OnlyReads(w, root, m, bias, l, v)
    ensures HeadersOnly(w, root, b, bias, l, v)
  {
    if InWindow(v) && Walk(w.mem, root, v, TOP.level).Some? && InImage(m, bias, v) {
      var i :| 0 <= i < |m.segments| && PageOf(m.segments[i], v - bias);
      var h, at := ElfHeaders.LoadHas(b, machine, USER_BASE, IMAGE_LIMIT, k, m, i);
      assert HeaderPage(b, h, at, v - bias);
    }
  }

  lemma FileLoaded(w: World, root: nat, b: seq<byte>, machine: Elf.u64, k: nat, m: Elf.Image, l: Layout, bias: nat,
      block: seq<byte>)
    requires Chosen(b, machine, k, m, l, bias) && Runs(w, root, b, m, bias, l, block)
    ensures FileRuns(w, root, b, m, bias, l)
  {
    forall h: nat, at: nat, a: nat ensures HeaderReads(w, root, b, m, bias, h, at, a) {
      HeaderRead(w, root, b, machine, k, m, bias, h, at, a);
    }
    forall v: nat ensures HeadersOnly(w, root, b, bias, l, v) {
      assert OnlyReads(w, root, m, bias, l, v);
      HeaderOnly(w, root, b, machine, k, m, bias, l, v);
    }
  }

  lemma LoadedRuns(w: World, kernel: nat, root: nat, b: seq<byte>, machine: Elf.u64, k: nat, m: Elf.Image, l: Layout,
      bias: nat, block: seq<byte>)
    requires Held(w, kernel) && Placed(l) && |block| == 32 && Chosen(b, machine, k, m, l, bias)
    requires Laid(w, root, ElfPlan(b, m, bias, l, block))
    ensures Runs(w, root, b, m, bias, l, block)
  {
    var fs := Fixes(b, m, bias, m.relocCount);
    Ready(b, machine, k, m, l, bias);
    PlanSeen(w, kernel, root, ElfPlan(b, m, bias, l, block));
    forall i: nat, page: nat, o: nat ensures SegmentReads(w, root, b, m, bias, fs, i, page, o) {
      SegmentRead(w, root, b, m, l, bias, block, fs, i, page, o);
    }
    forall r: nat ensures RelocReads(w, root, b, m, bias, r) {
      if LastFor(b, m, r) {
        var i := RelocPlace(b, machine, k, m, r);
        LastIsFix(b, m, bias, r);
        RelocRead(w, root, b, m, bias, fs, r, i);
      }
    }
    forall i: nat, o: nat ensures StackReads(w, root, l, block, i, o) {
      if 1 <= i <= l.depth && o < FRAME_SIZE {
        var p := StackSeen(w, root, b, m, l, bias, block, i, o);
        StackRead(w, root, l, block, i, o, p);
      }
    }
    forall v: nat ensures OnlyReads(w, root, m, bias, l, v) {
      if InWindow(v) && Walk(w.mem, root, v, TOP.level).Some? {
        ProgramSeesOnly(w, kernel, root, b, m, l, bias, block, fs, v);
      }
    }
  }

  lemma SeesByte(w: World, root: nat, p: PagePlan, v: nat, o: nat, x: byte, writable: bool, executable: bool)
    requires Sees(w, root, p) && p.v == v && o < |p.bytes| && p.bytes[o] == x && p.writable == writable
      && p.executable == executable
    ensures ReadsByte(w, root, v, o, x, writable, executable)
  {}

  lemma StackRead(w: World, root: nat, l: Layout, block: seq<byte>, i: nat, o: nat, p: PagePlan)
    requires 1 <= i <= l.edge && |block| <= FRAME_SIZE && o < FRAME_SIZE && Sees(w, root, p) && p.v == l.edge - i
    requires p.writable && !p.executable && |p.bytes| == FRAME_SIZE && p.bytes[o] == StackByte(block, i, o)
    ensures StackReads(w, root, l, block, i, o)
  {
    SeesByte(w, root, p, l.edge - i, o, StackByte(block, i, o), true, false);
  }

  lemma SegmentRead(w: World, root: nat, b: seq<byte>, m: Elf.Image, l: Layout, bias: nat, block: seq<byte>,
      fs: seq<Fix>, i: nat, page: nat, o: nat)
    requires Placed(l) && |block| == 32 && ReadyToLoad(b, m, bias, ElfImage(b, m, bias), fs)
    requires Seen(w, root, ElfPlan(b, m, bias, l, block))
    ensures SegmentReads(w, root, b, m, bias, fs, i, page, o)
  {
    if i < |m.segments| && PageOf(m.segments[i], page) && o < FRAME_SIZE {
      var p := ProgramSees(w, root, b, m, l, bias, block, fs, i, page, o);
      SegmentReadOf(w, root, b, m, bias, fs, i, page, o, p);
    }
  }

  lemma SegmentReadOf(w: World, root: nat, b: seq<byte>, m: Elf.Image, bias: nat, fs: seq<Fix>, i: nat, page: nat,
      o: nat, p: PagePlan)
    requires i < |m.segments| && o < FRAME_SIZE && Sees(w, root, p) && p.v == bias + page && |p.bytes| == FRAME_SIZE
    requires InBytes(b, m.segments[i])
      && p.bytes[o] == RelocByte(fs, page * FRAME_SIZE + o, SegByte(b, m.segments[i], page * FRAME_SIZE + o))
    requires p.writable == (m.segments[i].writable && !Guarded(m, page)) && p.executable == m.segments[i].executable
    ensures SegmentReads(w, root, b, m, bias, fs, i, page, o)
  {
    SeesByte(w, root, p, bias + page, o, p.bytes[o], p.writable, p.executable);
  }

  /** Relocation `r` points to an aligned word of segment `i`. */
  ghost predicate PointsTo(b: seq<byte>, m: Elf.Image, r: nat, i: nat) {
    && r < m.relocCount && i < |m.segments|
    && PageOf(m.segments[i], ElfParse.Target(b, m.relocFile, r) as nat / FRAME_SIZE)
    && (forall q :: 0 <= q < m.relocCount ==> ElfParse.Target(b, m.relocFile, q) % 8 == 0)
    && ElfParse.Addend(b, m.relocFile, r) <= Elf.MAX_IMAGE
  }

  lemma RelocPlace(b: seq<byte>, machine: Elf.u64, k: nat, m: Elf.Image, r: nat) returns (i: nat)
    requires ElfParse.Accepts(b, machine, USER_BASE, IMAGE_LIMIT, k) && ElfParse.ImageOf(b, k, m) && r < m.relocCount
    ensures PointsTo(b, m, r, i)
  {
    RelocsOk(b, machine, USER_BASE, IMAGE_LIMIT, k, m);
    i := RelocIn(b, m, ElfParse.Relative(machine).value, r);
  }

  lemma RelocIn(b: seq<byte>, m: Elf.Image, relative: Elf.u64, r: nat) returns (i: nat)
    requires r < m.relocCount
    requires forall q: nat :: q < m.relocCount ==> ElfParse.RelocOk(b, m.relocFile, q, m.segments, relative)
    ensures PointsTo(b, m, r, i)
  {
    assert ElfParse.RelocOk(b, m.relocFile, r, m.segments, relative);
    var target := ElfParse.Target(b, m.relocFile, r);
    i :| 0 <= i < |m.segments| && ElfParse.WritableAt(m.segments[i], target);
    TargetPage(m.segments[i], target);
    forall q | 0 <= q < m.relocCount ensures ElfParse.Target(b, m.relocFile, q) % 8 == 0 {
      assert ElfParse.RelocOk(b, m.relocFile, q, m.segments, relative);
    }
  }

  /** No later relocation of the list has the target of the one at `r`. */
  ghost predicate LastFix(fs: seq<Fix>, r: nat) {
    && r < |fs| && (forall q :: 0 <= q < |fs| ==> FixOk(fs[q]))
    && forall q :: r < q < |fs| ==> fs[q].target != fs[r].target
  }

  ghost function RelocValue(b: seq<byte>, m: Elf.Image, bias: nat, r: nat): (x: nat) {
    bias * FRAME_SIZE + ElfParse.Addend(b, m.relocFile, r) as nat
  }

  lemma LastIsFix(b: seq<byte>, m: Elf.Image, bias: nat, r: nat)
    requires LastFor(b, m, r) && RelocValue(b, m, bias, r) < Elf.U64
    requires forall q :: 0 <= q < m.relocCount ==> ElfParse.Target(b, m.relocFile, q) % 8 == 0
    ensures var fs := Fixes(b, m, bias, m.relocCount);
      && LastFix(fs, r) && fs[r].target == ElfParse.Target(b, m.relocFile, r) as nat
      && Elf.Rd64(fs[r].word, 0) as nat == RelocValue(b, m, bias, r)
  {
    var fs := Fixes(b, m, bias, m.relocCount);
    forall q | 0 <= q < |fs| ensures FixOk(fs[q]) { FixesAt(b, m, bias, m.relocCount, q); }
    FixesAt(b, m, bias, m.relocCount, r);
    forall q | r < q < |fs| ensures fs[q].target != fs[r].target { FixesAt(b, m, bias, m.relocCount, q); }
    StoredBack(RelocValue(b, m, bias, r));
  }

  lemma {:induction false} LastDecides(fs: seq<Fix>, r: nat, a: nat, first: byte)
    requires LastFix(fs, r) && fs[r].target <= a < fs[r].target + |fs[r].word|
    ensures RelocByte(fs, a, first) == fs[r].word[a - fs[r].target]
    decreases |fs|
  {
    var n := |fs| - 1;
    assert FixOk(fs[r]) && FixOk(fs[n]);
    if r < n { LastDecides(fs[..n], r, a, first); }
  }

  lemma WordInPage(t: nat)
    requires t % 8 == 0
    ensures t % FRAME_SIZE + 8 <= FRAME_SIZE
  {}

  lemma RelocByteRead(w: World, root: nat, b: seq<byte>, m: Elf.Image, bias: nat, fs: seq<Fix>, r: nat, i: nat,
      page: nat, o: nat, j: nat)
    requires LastFix(fs, r) && |fs[r].word| == 8 && fs[r].target == page * FRAME_SIZE + o && j < 8
      && o + 8 <= FRAME_SIZE
    requires i < |m.segments| && PageOf(m.segments[i], page) && SegmentReads(w, root, b, m, bias, fs, i, page, o + j)
    ensures ReadsByte(w, root, bias + page, o + j, fs[r].word[j], m.segments[i].writable && !Guarded(m, page),
      m.segments[i].executable)
  {
    var a := page * FRAME_SIZE + (o + j);
    LastDecides(fs, r, a, SegByte(b, m.segments[i], a));
  }

  lemma RelocRead(w: World, root: nat, b: seq<byte>, m: Elf.Image, bias: nat, fs: seq<Fix>, r: nat, i: nat)
    requires PointsTo(b, m, r, i) && LastFix(fs, r) && fs[r].target == ElfParse.Target(b, m.relocFile, r) as nat
    requires |fs[r].word| == 8 && Elf.Rd64(fs[r].word, 0) as nat == RelocValue(b, m, bias, r)
    requires forall i: nat, page: nat, o: nat :: SegmentReads(w, root, b, m, bias, fs, i, page, o)
    ensures RelocReads(w, root, b, m, bias, r)
  {
    var t := fs[r].target;
    var page, o := t / FRAME_SIZE, t % FRAME_SIZE;
    var writable := m.segments[i].writable && !Guarded(m, page);
    assert FixOk(fs[r]);
    WordInPage(t);
    forall j | 0 <= j < 8
      ensures ReadsByte(w, root, bias + page, o + j, fs[r].word[j], writable, m.segments[i].executable)
    {
      RelocByteRead(w, root, b, m, bias, fs, r, i, page, o, j);
    }
    BytesWord(w, root, bias + page, o, fs[r].word, writable, m.segments[i].executable);
  }

  lemma BytesWord(w: World, root: nat, v: nat, o: nat, word: seq<byte>, writable: bool, executable: bool)
    requires |word| == 8 && forall j :: 0 <= j < 8 ==> ReadsByte(w, root, v, o + j, word[j], writable, executable)
    ensures ReadsWord(w, root, v, o, Elf.Rd64(word, 0) as nat)
  {
    assert ReadsByte(w, root, v, o + 0, word[0], writable, executable);
    assert ReadsByte(w, root, v, o + 1, word[1], writable, executable);
    assert ReadsByte(w, root, v, o + 2, word[2], writable, executable);
    assert ReadsByte(w, root, v, o + 3, word[3], writable, executable);
    assert ReadsByte(w, root, v, o + 4, word[4], writable, executable);
    assert ReadsByte(w, root, v, o + 5, word[5], writable, executable);
    assert ReadsByte(w, root, v, o + 6, word[6], writable, executable);
    assert ReadsByte(w, root, v, o + 7, word[7], writable, executable);
  }

  /** The plan of an accepted image, laid out, is the program its file describes, with its startup block. */
  lemma ProgramLoaded(w: World, kernel: nat, root: nat, b: seq<byte>, machine: Elf.u64, k: nat, m: Elf.Image,
      l: Layout, bias: nat, startup: nat, word: Elf.u64)
    requires Held(w, kernel) && Placed(l) && Chosen(b, machine, k, m, l, bias) && startup == FRAME_SIZE * l.edge - 32
    requires Laid(w, root, ElfPlan(b, m, bias, l, Block(Guard(word))))
    ensures ProgramIn(w, root, b, m, bias, l, startup, word)
  {
    var block := Block(Guard(word));
    LoadedRuns(w, kernel, root, b, machine, k, m, l, bias, block);
    FileLoaded(w, root, b, machine, k, m, l, bias, block);
    BlockWords(Guard(word));
    StartupRead(w, root, l, block, word);
  }
}

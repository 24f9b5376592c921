/**
  What a loaded program's pages hold (src/memory/user.rs, src/memory/user_layout.rs):
  the pages in the order the loader maps them, and what each byte of them means.
 */
module UserPlan {
  import opened Base
  import opened Frames
  import opened PageTables
  import opened SpaceWorld
  import opened AddressSpaces
  import Elf
  import ElfParse

  const BASE_PAGE: nat := 0x6_4000_0000
  const LIMIT_PAGE: nat := 0x6_4400_0000
  const STACK_PAGES: nat := 4

  /** Where the image and the `depth` pages of the stack go, in page numbers; the stack pointer in bytes. */
  datatype Layout = Layout(bias: nat, edge: nat, depth: nat, pointer: nat)

  ghost predicate Placed(l: Layout)
  {
    BASE_PAGE < l.bias <= BASE_PAGE + 0x200_0000 && LIMIT_PAGE + 16 <= l.edge < LIMIT_PAGE + 0x200_0010
      && l.depth == STACK_PAGES
  }

  /** choose: any draws place the code in the lower half of the window and the stack above it. */
  function Choose(code: nat, stack: nat, sp: nat): (l: Layout)
    ensures Placed(l)
    ensures FRAME_SIZE * (l.edge - 1) < l.pointer <= FRAME_SIZE * l.edge - 64 && l.pointer % 16 == 0
  {
    var edge := LIMIT_PAGE + 16 + stack % 0x200_0000;
    Layout(BASE_PAGE + 1 + code % 0x200_0000, edge, STACK_PAGES, FRAME_SIZE * edge - 64 - sp / 16 % 64 * 16)
  }

  /** Every placement in the window can be drawn. */
  lemma ChooseReaches(bias: nat, edge: nat, n: nat)
    requires BASE_PAGE < bias <= BASE_PAGE + 0x200_0000 && LIMIT_PAGE + 16 <= edge < LIMIT_PAGE + 0x200_0010 && n < 64
    ensures Choose(bias - BASE_PAGE - 1, edge - LIMIT_PAGE - 16, 16 * n)
      == Layout(bias, edge, 4, 4096 * edge - 64 - 16 * n)
  {
    assert (16 * n) / 16 == n;
  }

  lemma WindowPages(v: nat)
    ensures InWindow(v) <==> BASE_PAGE <= v < BASE_PAGE + 0x800_0000
  {
    assert Pre(v, 1) == v / ENTRIES && Pre(v, 2) == Pre(v, 1) / ENTRIES && Pre(v, 3) == Pre(v, 2) / ENTRIES;
  }

  datatype PagePlan = PagePlan(v: nat, bytes: seq<byte>, writable: bool, executable: bool)

  ghost predicate PlanAt(w: World, root: nat, p: PagePlan) { PageIs(w, root, p.v, p.bytes, p.writable, p.executable) }

  ghost predicate Listed(plan: seq<PagePlan>, v: nat) { exists i :: 0 <= i < |plan| && plan[i].v == v }

  /** The space has exactly the planned pages. */
  ghost predicate Laid(w: World, root: nat, plan: seq<PagePlan>) {
    && root in w.spaces && (forall i :: 0 <= i < |plan| ==> PlanAt(w, root, plan[i]))
    && forall v: nat {:trigger Listed(plan, v)} :: Key(0, v) in w.spaces[root] ==> Listed(plan, v)
  }

  lemma LaidMore(w: World, w': World, root: nat, plan: seq<PagePlan>, p: PagePlan)
    requires Laid(w, root, plan) && PagesSame(w, w', root, {p.v}) && PlanAt(w', root, p) && !Listed(plan, p.v)
    ensures Laid(w', root, plan + [p])
  {
    var plan' := plan + [p];
    forall i | 0 <= i < |plan'| ensures PlanAt(w', root, plan'[i]) {
      if i < |plan| { assert PlanAt(w, root, plan[i]) && PageSame(w, w', root, plan[i].v); }
    }
    forall v: nat | Key(0, v) in w'.spaces[root] ensures Listed(plan', v) {
      if v == p.v {
        assert plan'[|plan|].v == v;
      } else {
        assert PageSame(w, w', root, v) && Listed(plan, v);
        var i :| 0 <= i < |plan| && plan[i].v == v;
        assert plan'[i].v == v;
      }
    }
  }

  // ---------------------------------------------------------------- flat programs

  function Chunk(code: seq<byte>, i: nat): (r: seq<byte>)
    requires i * FRAME_SIZE <= |code|
  { code[i * FRAME_SIZE..if (i + 1) * FRAME_SIZE < |code| then (i + 1) * FRAME_SIZE else |code|] }

  function CodePage(code: seq<byte>, first: nat, i: nat): (p: PagePlan)
    requires i * FRAME_SIZE <= |code|
  { PagePlan(first + i, Copied(Chunk(code, i), 0), false, true) }

  function CodePlan(code: seq<byte>, first: nat, n: nat): (plan: seq<PagePlan>)
    requires n == 0 || (n - 1) * FRAME_SIZE <= |code|
    ensures |plan| == n
  { if n == 0 then [] else CodePlan(code, first, n - 1) + [CodePage(code, first, n - 1)] }

  lemma {:induction false} CodePlanAt(code: seq<byte>, first: nat, n: nat, i: nat)
    requires i < n && (n - 1) * FRAME_SIZE <= |code|
    ensures i * FRAME_SIZE <= |code| && CodePlan(code, first, n)[i] == CodePage(code, first, i)
  {
    if i < n - 1 { CodePlanAt(code, first, n - 1, i); }
  }

  function StackData(i: nat, block: seq<byte>): (r: seq<byte>) { block[..if i == 1 then |block| else 0] }

  /** The stack's pages from the top; the first may end in the startup block. */
  function StackPage(edge: nat, i: nat, block: seq<byte>): (p: PagePlan)
    requires 1 <= i <= edge && |block| <= FRAME_SIZE
  { PagePlan(edge - i, Copied(StackData(i, block), if i == 1 then FRAME_SIZE - |block| else 0), true, false) }

  function StackPlan(edge: nat, n: nat, block: seq<byte>): (plan: seq<PagePlan>)
    requires n <= edge && |block| <= FRAME_SIZE
    ensures |plan| == n
  { if n == 0 then [] else StackPlan(edge, n - 1, block) + [StackPage(edge, n, block)] }

  lemma {:induction false} StackPlanAt(edge: nat, n: nat, block: seq<byte>, i: nat)
    requires i < n <= edge && |block| <= FRAME_SIZE
    ensures StackPlan(edge, n, block)[i] == StackPage(edge, i + 1, block)
  {
    if i < n - 1 { StackPlanAt(edge, n - 1, block, i); }
  }

  /** Byte for byte, the code and then zeroes. */
  lemma CodeByte(code: seq<byte>, first: nat, n: nat, i: nat, o: nat)
    requires i < n && (n - 1) * FRAME_SIZE < |code| && o < FRAME_SIZE
    ensures var p := CodePlan(code, first, n)[i];
      p.v == first + i && !p.writable && p.executable && |p.bytes| == FRAME_SIZE
      && p.bytes[o] == if i * FRAME_SIZE + o < |code| then code[i * FRAME_SIZE + o] else 0
  {
    CodePlanAt(code, first, n, i);
  }

  // ---------------------------------------------------------------- ELF images

  function SegLow(s: Elf.Segment, page: nat): (a: nat)
  {
    if page * FRAME_SIZE < s.vaddr as nat then s.vaddr as nat else page * FRAME_SIZE
  }

  function SegHigh(s: Elf.Segment, page: nat): (a: nat) {
    var e := s.vaddr as nat + s.filesz as nat; if (page + 1) * FRAME_SIZE < e then (page + 1) * FRAME_SIZE else e
  }

  /** The file bytes copied into a page of a segment. */
  function SegData(b: seq<byte>, s: Elf.Segment, page: nat): (r: seq<byte>) {
    var low, high := SegLow(s, page), SegHigh(s, page);
    if low < high && s.offset as nat + high - s.vaddr as nat <= |b| then
      b[s.offset as nat + low - s.vaddr as nat..s.offset as nat + high - s.vaddr as nat]
    else []
  }

  predicate ReadOnly(m: Elf.Image, page: nat)
  {
    m.relro.Some? && page * FRAME_SIZE >= m.relro.value.start as nat
      && (page + 1) * FRAME_SIZE <= m.relro.value.end as nat
  }

  predicate InRegion(r: Elf.Region, a: nat) { r.start as nat <= a < r.end as nat }

  /** Every address of the page is in the image's RELRO region. */
  ghost predicate Guarded(m: Elf.Image, page: nat) {
    m.relro.Some? && forall a: nat :: page * FRAME_SIZE <= a < (page + 1) * FRAME_SIZE ==> InRegion(m.relro.value, a)
  }

  lemma GuardedPage(m: Elf.Image, page: nat)
    ensures ReadOnly(m, page) <==> Guarded(m, page)
  {
    if Guarded(m, page) {
      assert InRegion(m.relro.value, page * FRAME_SIZE);
      assert InRegion(m.relro.value, page * FRAME_SIZE + FRAME_SIZE - 1);
    }
  }

  ghost predicate PageOf(s: Elf.Segment, page: nat) { Elf.FirstPage(s) <= page < Elf.LastPage(s) }

  function SegOffset(s: Elf.Segment, page: nat): (o: nat)
    ensures o <= FRAME_SIZE
  { if SegLow(s, page) - page * FRAME_SIZE <= FRAME_SIZE then SegLow(s, page) - page * FRAME_SIZE else 0 }

  function SegPage(b: seq<byte>, m: Elf.Image, s: Elf.Segment, bias: nat, page: nat): (p: PagePlan)
  {
    PagePlan(bias + page, Copied(SegData(b, s, page), SegOffset(s, page)), s.writable
      && !ReadOnly(m, page), s.executable)
  }

  /** What the program headers say of the byte at `a`: from the file, or zero. */
  function SegByte(b: seq<byte>, s: Elf.Segment, a: nat): (r: byte)
    requires s.offset as nat + s.filesz as nat <= |b|
  { if s.vaddr as nat <= a < s.vaddr as nat + s.filesz as nat then b[s.offset as nat + a - s.vaddr as nat] else 0 }

  /** The page-by-page copy is the byte-by-byte meaning. */
  lemma SegPageBytes(b: seq<byte>, m: Elf.Image, s: Elf.Segment, bias: nat, page: nat, o: nat)
    requires s.offset as nat + s.filesz as nat <= |b| && PageOf(s, page) && o < FRAME_SIZE
    ensures |SegPage(b, m, s, bias, page).bytes| == FRAME_SIZE
      && SegPage(b, m, s, bias, page).bytes[o] == SegByte(b, s, page * FRAME_SIZE + o)
  {}

  /** A segment's pages: `count` of them from page `first`. */
  datatype Piece = Piece(seg: Elf.Segment, first: nat, count: nat)

  function PieceOf(s: Elf.Segment): (p: Piece)
    ensures forall page: nat :: InPiece(p, page) <==> PageOf(s, page)
  { Piece(s, Elf.FirstPage(s), if Elf.FirstPage(s) <= Elf.LastPage(s) then Elf.LastPage(s) - Elf.FirstPage(s) else 0) }

  predicate InPiece(p: Piece, page: nat) { p.first <= page < p.first + p.count }

  function Pieces(segs: seq<Elf.Segment>): (ps: seq<Piece>)
    ensures |ps| == |segs|
  { if segs == [] then [] else Pieces(segs[..|segs| - 1]) + [PieceOf(segs[|segs| - 1])] }

  lemma {:induction false} PiecesAt(segs: seq<Elf.Segment>, i: nat)
    requires i < |segs|
    ensures Pieces(segs)[i] == PieceOf(segs[i])
  {
    if i < |segs| - 1 { PiecesAt(segs[..|segs| - 1], i); }
  }

  /** No page is in two pieces. */
  ghost predicate OnceAt(ps: seq<Piece>, i: nat, j: nat, page: nat)
  {
    i < |ps| && j < |ps| && InPiece(ps[i], page) && InPiece(ps[j], page) ==> i == j
  }

  ghost predicate Once(ps: seq<Piece>) { forall i: nat, j: nat, page: nat :: OnceAt(ps, i, j, page) }

  lemma OnceFrom(segs: seq<Elf.Segment>)
    requires Elf.AllApart(segs)
    ensures Once(Pieces(segs))
  {
    forall i: nat, j: nat, page: nat ensures OnceAt(Pieces(segs), i, j, page) {
      if i < |segs| && j < |segs| {
        PiecesAt(segs, i);
        PiecesAt(segs, j);
        assert Elf.ApartAt(segs, i, j) && Elf.ApartAt(segs, j, i);
      }
    }
  }

  /** How the loader fills the pages of a segment. */
  type Filler = (Elf.Segment, nat) -> PagePlan

  function Loader(b: seq<byte>, m: Elf.Image, bias: nat): (f: Filler)
  {
    (s: Elf.Segment, page: nat) => SegPage(b, m, s, bias, page)
  }

  /** The first `n` pages of a piece. */
  function Spread(f: Filler, p: Piece, n: nat): (plan: seq<PagePlan>)
    ensures |plan| == n
  { if n == 0 then [] else Spread(f, p, n - 1) + [f(p.seg, p.first + n - 1)] }

  lemma {:induction false} SpreadAt(f: Filler, p: Piece, n: nat, i: nat)
    requires i < n
    ensures Spread(f, p, n)[i] == f(p.seg, p.first + i)
  {
    if i < n - 1 { SpreadAt(f, p, n - 1, i); }
  }

  predicate InBytes(b: seq<byte>, s: Elf.Segment) { s.offset as nat + s.filesz as nat <= |b| && s.memsz > 0 }

  /** The pages of the first `j` pieces. */
  function ImagePlan(f: Filler, ps: seq<Piece>, j: nat): (plan: seq<PagePlan>)
    requires j <= |ps|
  { if j == 0 then [] else ImagePlan(f, ps, j - 1) + Spread(f, ps[j - 1], ps[j - 1].count) }

  ghost predicate PieceAt(ps: seq<Piece>, i: nat, page: int) { i < |ps| && page >= 0 && InPiece(ps[i], page) }

  /** Page `page` of the image is in one of the first `j` pieces. */
  ghost predicate InPieces(ps: seq<Piece>, j: nat, page: int) { exists i: nat :: i < j && PieceAt(ps, i, page) }

  /** Pages land where they should. */
  ghost predicate Biased(f: Filler, bias: nat) { forall s: Elf.Segment, page: nat :: f(s, page).v == bias + page }

  lemma ListedBoth(a: seq<PagePlan>, c: seq<PagePlan>, v: nat)
    ensures Listed(a + c, v) <==> Listed(a, v) || Listed(c, v)
  {
    if Listed(a, v) { var i :| 0 <= i < |a| && a[i].v == v; assert (a + c)[i].v == v; }
    if Listed(c, v) { var i :| 0 <= i < |c| && c[i].v == v; assert (a + c)[|a| + i].v == v; }
  }

  lemma SpreadListed(f: Filler, bias: nat, p: Piece, n: nat, v: nat)
    requires Biased(f, bias)
    ensures Listed(Spread(f, p, n), v) <==> p.first <= v - bias < p.first + n
  {
    var plan := Spread(f, p, n);
    forall i | 0 <= i < n ensures plan[i].v == bias + p.first + i { SpreadAt(f, p, n, i); }
    if p.first <= v - bias < p.first + n { assert plan[v - bias - p.first].v == v; }
  }

  /** The planned pages are exactly the pieces' pages. */
  lemma {:induction false} ImageListed(f: Filler, bias: nat, ps: seq<Piece>, j: nat, v: nat)
    requires j <= |ps| && Biased(f, bias)
    ensures Listed(ImagePlan(f, ps, j), v) <==> InPieces(ps, j, v - bias)
  {
    if j > 0 {
      ImageListed(f, bias, ps, j - 1, v);
      SpreadListed(f, bias, ps[j - 1], ps[j - 1].count, v);
      ListedBoth(ImagePlan(f, ps, j - 1), Spread(f, ps[j - 1], ps[j - 1].count), v);
      assert InPieces(ps, j, v - bias) <==> InPieces(ps, j - 1, v - bias) || PieceAt(ps, j - 1, v - bias);
    }
  }

  /** Where in the plan piece `j` starts. */
  function Start(ps: seq<Piece>, j: nat): (k: nat)
    requires j <= |ps|
  { if j == 0 then 0 else Start(ps, j - 1) + ps[j - 1].count }

  lemma {:induction false} StartIs(f: Filler, ps: seq<Piece>, j: nat)
    requires j <= |ps|
    ensures |ImagePlan(f, ps, j)| == Start(ps, j)
  {
    if j > 0 { StartIs(f, ps, j - 1); }
  }

  /** Which piece a planned page comes from. */
  lemma {:induction false} ImageAt(f: Filler, ps: seq<Piece>, j: nat, k: nat) returns (i: nat, page: nat)
    requires j <= |ps| && k < |ImagePlan(f, ps, j)|
    ensures i < j && InPiece(ps[i], page) && ImagePlan(f, ps, j)[k] == f(ps[i].seg, page)
      && k == Start(ps, i) + page - ps[i].first
  {
    var n := |ImagePlan(f, ps, j - 1)|;
    StartIs(f, ps, j - 1);
    if k < n {
      i, page := ImageAt(f, ps, j - 1, k);
    } else {
      SpreadAt(f, ps[j - 1], ps[j - 1].count, k - n);
      i, page := j - 1, ps[j - 1].first + k - n;
    }
  }

  /** The plan's place for a page of piece `i`. */
  lemma {:induction false} PlaceOf(f: Filler, ps: seq<Piece>, j: nat, i: nat, n: nat, k: nat)
    requires i < j <= |ps| && n < ps[i].count && k == Start(ps, i) + n
    ensures k < |ImagePlan(f, ps, j)| && ImagePlan(f, ps, j)[k] == f(ps[i].seg, ps[i].first + n)
    decreases j
  {
    var front, last := ImagePlan(f, ps, j - 1), Spread(f, ps[j - 1], ps[j - 1].count);
    assert ImagePlan(f, ps, j) == front + last;
    if i < j - 1 {
      PlaceOf(f, ps, j - 1, i, n, k);
    } else {
      StartIs(f, ps, i);
      SpreadAt(f, ps[i], ps[i].count, n);
      assert (front + last)[|front| + n] == last[n];
    }
  }

  ghost predicate DistinctAt(all: seq<PagePlan>, i: nat, k: nat) { i < k < |all| ==> all[i].v != all[k].v }

  ghost predicate Distinct(all: seq<PagePlan>) { forall i: nat, k: nat :: DistinctAt(all, i, k) }

  lemma PlanDistinct(f: Filler, bias: nat, ps: seq<Piece>, all: seq<PagePlan>)
    requires Biased(f, bias) && Once(ps) && all == ImagePlan(f, ps, |ps|)
    ensures Distinct(all)
  {
    forall i: nat, k: nat ensures DistinctAt(all, i, k) {
      if i < k < |all| {
        var j, page := ImageAt(f, ps, |ps|, i);
        var j', page' := ImageAt(f, ps, |ps|, k);
        assert OnceAt(ps, j, j', page);
      }
    }
  }

  // ---------------------------------------------------------------- relocations

  /** A 64-bit word as stored, low byte first. */
  function Stored(x: nat): (r: seq<byte>)
    ensures |r| == 8
  {
    var q1 := x / 256; var q2 := q1 / 256; var q3 := q2 / 256; var q4 := q3 / 256; var q5 := q4 / 256;
      var q6 := q5 / 256; var q7 := q6 / 256;
    [(x % 256) as byte, (q1 % 256) as byte, (q2 % 256) as byte, (q3 % 256) as byte, (q4 % 256) as byte,
      (q5 % 256) as byte, (q6 % 256) as byte, (q7 % 256) as byte]
  }

  /** A stored word reads back. */
  lemma StoredBack(x: nat)
    requires x < 0x1_0000_0000_0000_0000
    ensures Elf.Rd64(Stored(x), 0) as nat == x
  {
    var b := Stored(x);
    var q2 := x / 256 / 256; var q4 := q2 / 256 / 256; var q6 := q4 / 256 / 256;
    Halves(x, b[0], b[1]); Halves(q2, b[2], b[3]); Halves(q4, b[4], b[5]); Halves(q6, b[6], b[7]);
    assert Elf.Rd16(b, 0) as nat == x - 0x1_0000 * q2 && Elf.Rd16(b, 2) as nat == q2 - 0x1_0000 * q4;
    assert Elf.Rd16(b, 4) as nat == q4 - 0x1_0000 * q6 && Elf.Rd16(b, 6) as nat == q6;
  }

  lemma Halves(x: nat, lo: byte, hi: byte)
    requires lo as nat == x % 256 && hi as nat == x / 256 % 256
    ensures lo as nat + 0x100 * hi as nat == x - 0x1_0000 * (x / 256 / 256)
  {}

  function Spliced(bs: seq<byte>, o: nat, val: seq<byte>): (r: seq<byte>)
    requires o + |val| <= |bs|
    ensures |r| == |bs| && forall j :: 0 <= j < |bs| ==> r[j] == if o <= j < o + |val| then val[j - o] else bs[j]
  { bs[..o] + val + bs[o + |val|..] }

  /** One word stored at address `a` of a page. */
  function Patch(p: PagePlan, a: nat, val: seq<byte>): (r: PagePlan)
    ensures r.v == p.v && |r.bytes| == |p.bytes| && r.writable == p.writable && r.executable == p.executable
  {
    if p.v == a / FRAME_SIZE
      && a % FRAME_SIZE + |val| <= |p.bytes| then p.(bytes := Spliced(p.bytes, a % FRAME_SIZE, val)) else p
  }

  /** A relocation: the image address it changes and the word it stores there. */
  datatype Fix = Fix(target: nat, word: seq<byte>)

  ghost predicate FixOk(f: Fix) { f.target % 8 == 0 && |f.word| == 8 }

  /** The relocations of an image loaded at page `bias`, in file order. */
  function Fixes(b: seq<byte>, m: Elf.Image, bias: nat, n: nat): (fs: seq<Fix>)
    ensures |fs| == n
  {
    if n == 0 then []
    else Fixes(b, m, bias,
      n - 1) + [Fix(ElfParse.Target(b, m.relocFile, n - 1) as nat,
      Stored(bias * FRAME_SIZE + ElfParse.Addend(b, m.relocFile, n - 1) as nat))]
  }

  lemma {:induction false} FixesAt(b: seq<byte>, m: Elf.Image, bias: nat, n: nat, i: nat)
    requires i < n
    ensures Fixes(b, m, bias, n)[i] == Fix(ElfParse.Target(b, m.relocFile, i) as nat,
      Stored(bias * FRAME_SIZE + ElfParse.Addend(b, m.relocFile, i) as nat))
    ensures Fixes(b, m, bias, n)[..i] == Fixes(b, m, bias, i)
  {
    var all, less := Fixes(b, m, bias, n), Fixes(b, m, bias, n - 1);
    assert all[..n - 1] == less;
    if i < n - 1 {
      FixesAt(b, m, bias, n - 1, i);
      assert all[..i] == less[..i];
    }
  }

  /** How a relocation changes a page. */
  type Patcher = (PagePlan, Fix) -> PagePlan

  function Fixer(bias: nat): (g: Patcher) { (p: PagePlan, f: Fix) => Patch(p, bias * FRAME_SIZE + f.target, f.word) }

  /** Every page changed by one relocation. */
  function PatchAll(g: Patcher, plan: seq<PagePlan>, f: Fix): (r: seq<PagePlan>)
    ensures |r| == |plan|
  { if plan == [] then [] else PatchAll(g, plan[..|plan| - 1], f) + [g(plan[|plan| - 1], f)] }

  lemma {:induction false} PatchAllAt(g: Patcher, plan: seq<PagePlan>, f: Fix, k: nat)
    requires k < |plan|
    ensures PatchAll(g, plan, f)[k] == g(plan[k], f)
  {
    if k < |plan| - 1 { PatchAllAt(g, plan[..|plan| - 1], f, k); }
  }

  /** The pages after relocations. */
  function Relocated(g: Patcher, plan: seq<PagePlan>, fs: seq<Fix>): (r: seq<PagePlan>)
    ensures |r| == |plan|
  { if fs == [] then plan else PatchAll(g, Relocated(g, plan, fs[..|fs| - 1]), fs[|fs| - 1]) }

  /** One page after relocations. */
  function FixedPage(g: Patcher, p: PagePlan, fs: seq<Fix>): (r: PagePlan)
  {
    if fs == [] then p else g(FixedPage(g, p, fs[..|fs| - 1]), fs[|fs| - 1])
  }

  lemma {:induction false} RelocatedAt(g: Patcher, plan: seq<PagePlan>, fs: seq<Fix>, k: nat)
    requires k < |plan|
    ensures Relocated(g, plan, fs)[k] == FixedPage(g, plan[k], fs)
  {
    if fs != [] {
      RelocatedAt(g, plan, fs[..|fs| - 1], k);
      PatchAllAt(g, Relocated(g, plan, fs[..|fs| - 1]), fs[|fs| - 1], k);
    }
  }

  /** The byte at image address `a` after relocations over `first`: the last one to touch it decides. */
  function RelocByte(fs: seq<Fix>, a: nat, first: byte): (r: byte) {
    if fs == [] then first
    else var n := |fs| - 1; var f := fs[n];
      if f.target <= a < f.target + |f.word| then f.word[a - f.target] else RelocByte(fs[..n], a, first)
  }

  lemma {:induction false} FixedByte(bias: nat, p: PagePlan, fs: seq<Fix>, page: nat, o: nat)
    requires p.v == bias + page && |p.bytes| == FRAME_SIZE && o < FRAME_SIZE && forall i :: 0 <= i < |fs| ==>
      FixOk(fs[i])
    ensures var q := FixedPage(Fixer(bias), p, fs);
      q.v == p.v && q.writable == p.writable && q.executable == p.executable && |q.bytes| == FRAME_SIZE
    ensures FixedPage(Fixer(bias), p, fs).bytes[o] == RelocByte(fs, page * FRAME_SIZE + o, p.bytes[o])
  {
    if fs != [] {
      var n := |fs| - 1;
      FixedByte(bias, p, fs[..n], page, o);
      assert FixOk(fs[n]);
      PatchAt(FixedPage(Fixer(bias), p, fs[..n]), bias, fs[n].target, fs[n].word, page, o);
    }
  }

  lemma PatchAt(p: PagePlan, bias: nat, t: nat, val: seq<byte>, page: nat, o: nat)
    requires p.v == bias + page && |p.bytes| == FRAME_SIZE && o < FRAME_SIZE && t % 8 == 0 && |val| == 8
    ensures Patch(p, bias * FRAME_SIZE + t, val).bytes[o]
      == if t <= page * FRAME_SIZE + o < t + 8 then val[page * FRAME_SIZE + o - t] else p.bytes[o]
  {
    assert (bias * FRAME_SIZE + t) / FRAME_SIZE == bias + t / FRAME_SIZE
      && (bias * FRAME_SIZE + t) % FRAME_SIZE == t % FRAME_SIZE;
  }

  /** The page of a piece is the one its loader filled. */
  lemma PlannedAt(f: Filler, bias: nat, ps: seq<Piece>, i: nat, page: nat, k: nat)
    requires Biased(f, bias) && i < |ps| && Once(ps) && InPiece(ps[i], page) && k < |ImagePlan(f, ps, |ps|)|
      && ImagePlan(f, ps, |ps|)[k].v == bias + page
    ensures ImagePlan(f, ps, |ps|)[k] == f(ps[i].seg, page)
  {
    var i', page' := ImageAt(f, ps, |ps|, k);
    assert OnceAt(ps, i, i', page);
  }

  /** The whole image: every byte of every page of a segment, and the page's rights. */
  lemma LoadedByte(b: seq<byte>, m: Elf.Image, bias: nat, ps: seq<Piece>, plan: seq<PagePlan>, fs: seq<Fix>, i: nat,
      page: nat, o: nat, k: nat)
    requires ps == Pieces(m.segments) && plan == ImagePlan(Loader(b, m, bias), ps, |ps|) && i < |m.segments|
      && InBytes(b, m.segments[i]) && Elf.AllApart(m.segments)
    requires PageOf(m.segments[i], page) && k < |plan| && plan[k].v == bias + page && o < FRAME_SIZE
      && forall r :: 0 <= r < |fs| ==> FixOk(fs[r])
    ensures var s, p := m.segments[i], Relocated(Fixer(bias), plan, fs)[k];
      && p.v == bias + page && |p.bytes| == FRAME_SIZE
      && p.bytes[o] == RelocByte(fs, page * FRAME_SIZE + o, SegByte(b, s, page * FRAME_SIZE + o))
      && p.writable == (s.writable && !Guarded(m, page)) && p.executable == s.executable
  {
    GuardedPage(m, page);
    OnceFrom(m.segments);
    PiecesAt(m.segments, i);
    PlannedAt(Loader(b, m, bias), bias, ps, i, page, k);
    SegPageBytes(b, m, m.segments[i], bias, page, o);
    RelocatedAt(Fixer(bias), plan, fs, k);
    FixedByte(bias, plan[k], fs, page, o);
  }
}

/**
  The kernel allocator over slabs and backing pages (src/memory/heap.rs:59-120): it grows by
  whole slabs, never meets the end of its address range and never finds its own state corrupt.
 */
module KernelHeap {
  import opened Base
  import opened HeapPages
  import opened PageTables
  import opened SlabModel
  import opened SlabHeap

  /** Twice the largest span: what one slab can use up, its alignment gap included. */
  const REACH: nat := 0x200_0000

  datatype Outcome = Null | Pointer(at: nat) | Fatal

  datatype Growth = Grew | Refused | Broken

  lemma Powers()
    ensures Pow2(24) == 0x100_0000 && Pow2(BITS) == WORD
  {
    Pow2Twelve();
    Pow2Splits(12, 12);
    Pow2Splits(8, 8);
    Pow2Splits(16, 16);
    Pow2Splits(32, 32);
  }

  lemma WordIs()
    ensures Pow2(BITS) == WORD
  {
    Powers();
  }

  /** amd_heap: any draw leaves the whole budget below the limit. */
  function Placement(word: nat): (start: nat)
    ensures AMD_HEAP_BASE <= start && start + HEAP_VA_BUDGET <= HEAP_LIMIT && start % CHUNK == 0
  { AMD_HEAP_BASE + word % HEAP_PLACEMENTS * CHUNK }

  /** Every placement can be drawn. */
  lemma PlacementReaches(n: nat)
    requires n < HEAP_PLACEMENTS
    ensures Placement(n) == AMD_HEAP_BASE + CHUNK * n
  {}

  /** Any placement is one the heap can start from. */
  lemma PlacementFits(word: nat)
    ensures Within(Placement(word), Placement(word), Placement(word) + INITIAL, 0)
      && BackingFrames(Placement(word), INITIAL).Some?
  {
    GrownFits(Placement(word), INITIAL);
  }

  lemma SpanAtMost(req: Request)
    requires Sized(req) && Consistent(req)
    ensures 0 < req.span <= 0x100_0000
  {
    Powers();
    Pow2Grows(ShiftOf(req.cache), 24);
  }

  predicate AlignedTo(x: nat, span: nat) { span > 0 && x % span == 0 }

  /** The next multiple of a power of two, found by masking. */
  method NextMultiple(x: nat, span: nat) returns (r: nat)
    requires span > 0
    ensures AlignedTo(r, span) && x <= r < x + span
  {
    var y := x + span - 1;
    Euclid(y, span);
    DivMod(y - y % span, span, y / span, 0);
    r := y - y % span;
  }

  ghost predicate FreshFrom(mem: Memory, next: nat) { forall x: nat :: x >= next ==> Load(mem, x) == ZERO }

  /** The heap's place: what is used, what is mapped, and how far both can have come. */
  ghost predicate Within(start: nat, next: nat, end: nat, slabs: nat) {
    && AMD_HEAP_BASE <= start && start + HEAP_VA_BUDGET <= HEAP_LIMIT && start % CHUNK == 0 && end % CHUNK == 0
    && start <= next <= end && next <= start + REACH * slabs && (end <= start + INITIAL || end < next + CHUNK)
  }

  method FirstPages(at: nat, free: nat) returns (b: Backing)
    requires at % CHUNK == 0 && BackingFrames(at, INITIAL).Some? && free >= 8 + BackingFrames(at, INITIAL).value
    ensures fresh(b) && MappedIs(b.pages, at, at + INITIAL)
  {
    b := new Backing(free - 8, ROOTS);
    BackingIs(at, INITIAL);
    MappedMore({}, at, at, INITIAL);
    var ok := b.MapHeapPages(at / HeapPages.PAGE, INITIAL / HeapPages.PAGE);
  }

  class KernelHeap {
    const slabs: Slabs
    const backing: Backing
    ghost const start: nat
    var next: nat
    var end: nat

    ghost predicate Valid()
      reads this, slabs, backing
    {
      && slabs.Valid() && Within(start, next, end, |slabs.pages|) && FreshFrom(slabs.mem, next)
      && (slabs.pages != [] ==> SlabHeap.End(slabs.pages) <= next)
      && MappedIs(backing.pages, start, end)
    }

    /**
      heap_init and initialize: the eight root links, a random place and its first 4 MiB; too few
      frames for these stop the boot.
     */
    constructor (at: nat, free: nat, secret: Word)
      requires Within(at, at, at + INITIAL, 0) && BackingFrames(at, INITIAL).Some?
        && free >= 8 + BackingFrames(at, INITIAL).value
      ensures Valid() && start == at && slabs.pages == [] && next == start && end == start + INITIAL && fresh(slabs)
        && fresh(backing)
    {
      var b := FirstPages(at, free);
      slabs := new Slabs(secret, map[]);
      backing, start, next, end := b, at, at, at + INITIAL;
    }

    /** A slab more for a cache, on mapped zeroed pages; refused only for lack of frames, and then nothing changes. */
    method Grow(req: Request, draws: seq<nat>) returns (r: Growth, ghost top: nat)
      requires Valid() && |slabs.pages| < MAX_SLABS && |draws| >= 256
      requires Sized(req) && Consistent(req)
      modifies this, slabs, backing
      ensures Valid() && !r.Broken?
      ensures r.Refused? ==>
        next == old(next) && end == old(end) && backing.free == old(backing.free)
        && backing.tables == old(backing.tables) && backing.pages == old(backing.pages)
      ensures r.Refused? ==>
        slabs.pages == old(slabs.pages) && slabs.mem == old(slabs.mem) && next + req.span <= top < next + 2 * req.span
        && LackingFor(backing.free, end, top)
      ensures r.Grew? ==>
        |slabs.pages| == |old(slabs.pages)| + 1 && slabs.pages[..|old(slabs.pages)|] == old(slabs.pages)
        && SameBelow(old(slabs.mem), slabs.mem, old(next))
      ensures r.Grew? ==> var p := slabs.pages[|slabs.pages| - 1]; p.cache == req.cache && p.live == {} && p.free > 0
    {
      var ok, base := Reserve(req);
      top := base + req.span;
      if !ok { return Refused, top; }
      r := AddSlab(base, req, draws);
    }

    /** An aligned place for the slab above everything in use, with pages behind it. */
    method Reserve(req: Request) returns (ok: bool, base: nat)
      requires Valid() && |slabs.pages| < MAX_SLABS && Sized(req) && Consistent(req)
      modifies this`end, backing
      ensures next <= base < next + req.span && AlignedTo(base, req.span) && MappedIs(backing.pages, start, end)
      ensures !ok ==>
        end == old(end) && backing.free == old(backing.free) && backing.tables == old(backing.tables)
        && backing.pages == old(backing.pages) && LackingFor(backing.free, end, base + req.span)
      ensures ok ==> base + req.span < WORD && Within(start, base + req.span, end, |slabs.pages| + 1)
    {
      SpanAtMost(req);
      base := NextMultiple(next, req.align);
      TopFits(start, next, end, |slabs.pages|, base + req.span);
      if base + req.span > HEAP_LIMIT { return false, base; }
      ok := Back(base + req.span);
    }

    /**
      allocate_domain: no request ever finds the heap corrupt. It is refused only for a bad
      layout, or, with no free slot left in its cache, for want of slab records or frames;
      a refusal changes nothing. A pointer is a slot nobody held, of the heap as it was or
      with one more slab above it; nothing else that was in use has changed.
     */
    method Allocate(l: Layout, domain: nat, draws: seq<nat>)
        returns (r: Outcome, ghost pages: seq<Slab>, ghost mem: Memory)
      requires Valid() && |draws| >= 256
      modifies this, slabs, backing
      ensures Valid() && !r.Fatal?
      ensures r.Null? ==>
        slabs.pages == old(slabs.pages) && slabs.mem == old(slabs.mem) && next == old(next) && end == old(end)
      ensures r.Null? ==>
        backing.free == old(backing.free) && backing.tables == old(backing.tables)
        && backing.pages == old(backing.pages)
      ensures r.Null? && MakeRequest(l, domain).Ok? ==> NoSlot(slabs.pages, MakeRequest(l, domain).value.cache)
      ensures r.Null? && MakeRequest(l, domain).Ok? ==>
        |slabs.pages| == MAX_SLABS || Lacking(backing.free, end, next, MakeRequest(l, domain).value.span)
      ensures r.Pointer? ==>
        Extends(old(slabs.pages), pages) && SameBelow(old(slabs.mem), mem, old(next))
        && Granted(pages, mem, slabs.pages, slabs.mem, r.at, l, domain)
    {
      pages, mem := slabs.pages, slabs.mem;
      var first := Take(l, domain);
      if first.Err? {
        r := if first.error == LayoutError then Null else Fatal;
        return;
      }
      if first.value.Some? {
        r := Pointer(first.value.value);
        return;
      }
      r, pages, mem := GrowAndTake(l, domain, draws);
    }

    /** No free slot left in the cache: a slab more and a slot of it. */
    method GrowAndTake(l: Layout, domain: nat, draws: seq<nat>)
        returns (r: Outcome, ghost pages: seq<Slab>, ghost mem: Memory)
      requires Valid() && |draws| >= 256 && MakeRequest(l, domain).Ok?
      modifies this, slabs, backing
      ensures Valid() && !r.Fatal?
      ensures r.Null? ==>
        slabs.pages == old(slabs.pages) && slabs.mem == old(slabs.mem) && next == old(next) && end == old(end)
      ensures r.Null? ==>
        backing.free == old(backing.free) && backing.tables == old(backing.tables)
        && backing.pages == old(backing.pages)
      ensures r.Null? ==>
        |slabs.pages| == MAX_SLABS || Lacking(backing.free, end, next, MakeRequest(l, domain).value.span)
      ensures r.Pointer? ==>
        Extends(old(slabs.pages), pages) && SameBelow(old(slabs.mem), mem, old(next))
        && Granted(pages, mem, slabs.pages, slabs.mem, r.at, l, domain)
    {
      r, pages, mem := Null, slabs.pages, slabs.mem;
      if |slabs.pages| >= MAX_SLABS { return; }
      RequestServed(l, domain);
      var grown, top := Grow(MakeRequest(l, domain).value, draws);
      if grown.Refused? { return; }
      if grown.Broken? {
        r := Fatal;
        return;
      }
      pages, mem := slabs.pages, slabs.mem;
      r := Retry(l, domain);
    }

    /** The allocation that follows a growth. */
    method Retry(l: Layout, domain: nat) returns (r: Outcome)
      requires Valid() && MakeRequest(l, domain).Ok? && slabs.pages != []
        && slabs.pages[|slabs.pages| - 1].cache == MakeRequest(l, domain).value.cache
        && slabs.pages[|slabs.pages| - 1].live == {}
      modifies slabs
      ensures Valid() && r.Pointer?
        && Granted(old(slabs.pages), old(slabs.mem), slabs.pages, slabs.mem, r.at, l, domain)
    {
      NotFull(slabs.mem, CodecFor(slabs.secret), slabs.pages, slabs.lists, slabs.fls);
      var again := Take(l, domain);
      if again.Err? || again.value.None? { return Fatal; }
      r := Pointer(again.value.value);
    }

    /** A slot from the slabs there are; memory above the last slab stays untouched. */
    method Take(l: Layout, domain: nat) returns (r: Result<Option<nat>>)
      requires Valid()
      modifies slabs
      ensures Valid() && (r.Err? <==> MakeRequest(l, domain).Err?) && (r.Err? ==> r.error == LayoutError)
      ensures r.Err? || r.value.None? ==> slabs.pages == old(slabs.pages) && slabs.mem == old(slabs.mem)
      ensures r.Ok? && r.value.None? ==> NoSlot(slabs.pages, MakeRequest(l, domain).value.cache)
      ensures r.Ok? && r.value.Some? ==>
        Granted(old(slabs.pages), old(slabs.mem), slabs.pages, slabs.mem, r.value.value, l, domain)
    {
      ghost var mem, pages, lists, fls := slabs.mem, slabs.pages, slabs.lists, slabs.fls;
      r := slabs.Allocate(l, domain);
      if r.Ok? && r.value.Some? {
        TakenBelow(CodecFor(slabs.secret), mem, pages, lists, fls, slabs.mem, slabs.pages, slabs.lists, slabs.fls,
          r.value.value, l, domain);
      }
    }

    /** deallocate_domain: fatal exactly when the pointer is not a live slot of the layout's cache. */
    method Deallocate(pointer: nat, l: Layout, domain: nat) returns (ok: bool)
      requires Valid()
      modifies slabs
      ensures Valid()
        && (ok <==>
        MakeRequest(l, domain).Ok?
        && exists i: nat, s: nat :: Held(old(slabs.pages), i, s, pointer, MakeRequest(l, domain).value.cache))
      ensures !ok ==> slabs.pages == old(slabs.pages) && slabs.mem == old(slabs.mem)
      ensures ok ==>
        exists i: nat, s: nat ::
          Gave(old(slabs.pages), slabs.pages, i, s, pointer)
          && Wiped(old(slabs.mem), slabs.mem, pointer, slabs.pages[i].stride)
    {
      ghost var mem, pages, lists, fls := slabs.mem, slabs.pages, slabs.lists, slabs.fls;
      var r := slabs.Deallocate(pointer, l, domain);
      if r.Err? { return false; }
      ghost var i: nat, s: nat :| Gave(pages, slabs.pages, i, s, pointer)
        && Wiped(mem, slabs.mem, pointer, slabs.pages[i].stride);
      GivenAt(CodecFor(slabs.secret), mem, pages, lists, fls, slabs.mem, slabs.pages, slabs.lists, slabs.fls, i, s,
        pointer);
      ok := true;
    }

    /** Maps what is missing below `top`. */
    method Back(top: nat) returns (ok: bool)
      requires start <= end && end % CHUNK == 0 && MappedIs(backing.pages, start, end) && Room(start, end, top)
      modifies this`end, backing
      ensures !ok ==>
        end == old(end) && backing.free == old(backing.free) && backing.tables == old(backing.tables)
        && backing.pages == old(backing.pages) && LackingFor(old(backing.free), end, top)
      ensures ok ==> end == (if top <= old(end) then old(end) else old(end) + Grown(top - old(end)))
      ensures MappedIs(backing.pages, start, end)
    {
      if top <= end { return true; }
      MappedMore(backing.pages, start, end, Grown(top - end));
      var grown := backing.HeapExtend(end, top - end);
      if grown.None? { return false; }
      end := end + grown.value;
      ok := true;
    }

    /** The slab itself, on backed memory. */
    method AddSlab(base: nat, req: Request, draws: seq<nat>) returns (r: Growth)
      requires slabs.Valid() && |slabs.pages| < MAX_SLABS && |draws| >= 256 && MappedIs(backing.pages, start, end)
      requires Sized(req) && Consistent(req)
      requires FreshFrom(slabs.mem, next) && (slabs.pages != [] ==> SlabHeap.End(slabs.pages) <= next)
        && 0 < next <= base && AlignedTo(base, req.span) && base + req.span < WORD
      requires Within(start, base + req.span, end, |slabs.pages| + 1)
      modifies this`next, slabs
      ensures Valid() && r.Grew? && |slabs.pages| == |old(slabs.pages)| + 1
        && slabs.pages[..|old(slabs.pages)|] == old(slabs.pages) && SameBelow(old(slabs.mem), slabs.mem, old(next))
      ensures var p := slabs.pages[|slabs.pages| - 1]; p.cache == req.cache && p.live == {} && p.free > 0
    {
      WordIs();
      next := base + req.span;
      var added := slabs.Add(base, req, draws);
      if added.Err? { return Broken; }
      r := Grew;
    }
  }

  const ROOT: nat := 0x1ff_ff80
  const ROOTS: set<Key> := {Key(3, ROOT), Key(3, ROOT + 1), Key(3, ROOT + 2), Key(3, ROOT + 3), Key(3, ROOT + 4),
    Key(3, ROOT + 5), Key(3, ROOT + 6), Key(3, ROOT + 7)}

  ghost predicate MappedIs(pages: set<nat>, start: nat, end: nat)
  {
    forall v: nat :: v in pages <==> start / HeapPages.PAGE <= v < end / HeapPages.PAGE
  }

  /** The address range has room for everything up to `top`, rounded up to a chunk. */
  ghost predicate Room(start: nat, end: nat, top: nat) {
    top <= HEAP_LIMIT
      && (top > end ==>
      end + Grown(top - end) <= HEAP_LIMIT && end + Grown(top - end) < WORD
      && BackingFrames(end, Grown(top - end)).Some?)
  }

  /** While there are slab records left the address range is never exhausted. */
  lemma TopFits(start: nat, next: nat, end: nat, slabs: nat, top: nat)
    requires Within(start, next, end, slabs) && slabs < MAX_SLABS && next <= top <= next + REACH
    ensures top < WORD && Room(start, end, top)
      && Within(start, top, if top <= end then end else end + Grown(top - end), slabs + 1)
  {
    if top > end { GrownFits(end, Grown(top - end)); }
  }

  lemma GrownFits(end: nat, g: nat)
    requires end % CHUNK == 0 && g % CHUNK == 0 && g > 0
    ensures (end + g) % CHUNK == 0 && (end + g < WORD ==> BackingFrames(end, g).Some?)
  {
    Chunks(end);
    Chunks(g);
    DivMod(end + g, CHUNK, end / CHUNK + g / CHUNK, 0);
  }

  lemma Chunks(x: nat)
    requires x % CHUNK == 0
    ensures x == CHUNK * (x / CHUNK) && x % HeapPages.PAGE == 0 && x / HeapPages.PAGE == 512 * (x / CHUNK)
  {
    DivMod(x, HeapPages.PAGE, 512 * (x / CHUNK), 0);
  }

  lemma MappedMore(pages: set<nat>, start: nat, end: nat, g: nat)
    requires MappedIs(pages, start, end) && start <= end && end % CHUNK == 0 && g % CHUNK == 0
    ensures end % HeapPages.PAGE == 0 && (forall v :: end / HeapPages.PAGE <= v ==> v !in pages)
    ensures MappedIs(pages + Pages(end / HeapPages.PAGE, g / HeapPages.PAGE), start, end + g)
  {
    Chunks(end);
    Chunks(g);
    DivMod(end + g, HeapPages.PAGE, 512 * (end / CHUNK) + 512 * (g / CHUNK), 0);
  }

  /** Not enough frames to back the heap up to `top`. */
  ghost predicate LackingFor(free: nat, end: nat, top: nat) {
    top > end && BackingFrames(end, Grown(top - end)).Some? && free < BackingFrames(end, Grown(top - end)).value
  }

  /** Not enough frames to back a slab of this span above `next`. */
  ghost predicate Lacking(free: nat, end: nat, next: nat, span: nat)
  {
    exists top: nat :: next + span <= top < next + 2 * span && LackingFor(free, end, top)
  }

  /** Every slab of the cache is full. */
  ghost predicate NoSlot(pages: seq<Slab>, cache: nat)
  {
    forall i :: 0 <= i < |pages| && pages[i].cache == cache ==> Full(pages[i])
  }

  /** `pages` are the slabs there were, with at most one new slab above them. */
  ghost predicate Extends(was: seq<Slab>, pages: seq<Slab>) {
    |was| <= |pages| <= |was| + 1 && pages[..|was|] == was && (|pages| > |was| ==> pages[|was|].live == {})
  }

  ghost predicate SameBelow(mem: Memory, mem': Memory, n: nat)
  {
    forall x: nat :: x < n ==> Load(mem', x) == Load(mem, x)
  }

  /**
    A slot of the layout's cache that was not live is now, is large and aligned enough and all
    zeros, and nothing else has changed.
   */
  ghost predicate Granted(pages: seq<Slab>, mem: Memory, pages': seq<Slab>, mem': Memory, at: nat, l: Layout,
      domain: nat) {
    && MakeRequest(l, domain).Ok? && (exists i: nat, s: nat :: Serves(pages, pages', i, s, at, l, domain))
    && OnlyOn(mem, mem', at, at + MakeRequest(l, domain).value.stride)
    && ZeroFrom(mem', at, 0, Words(MakeRequest(l, domain).value.stride))
  }

  /** The slot taken lies below the end of the last slab, which has not moved. */
  lemma TakenBelow(decode: Codec, mem: Memory, pages: seq<Slab>, lists: seq<nat>, fls: seq<seq<nat>>, mem': Memory,
      pages': seq<Slab>, lists': seq<nat>, fls': seq<seq<nat>>, at: nat, l: Layout, domain: nat)
    requires HeapOk(mem, decode, pages, lists, fls) && HeapOk(mem', decode, pages', lists', fls')
      && exists i: nat, s: nat :: Serves(pages, pages', i, s, at, l, domain)
    ensures MakeRequest(l, domain).Ok?
    ensures pages != [] && |pages'| == |pages|
      && at + MakeRequest(l, domain).value.stride <= SlabHeap.End(pages) == SlabHeap.End(pages')
  {
    var i: nat, s: nat :| Serves(pages, pages', i, s, at, l, domain);
    RequestServed(l, domain);
    assert Held(pages', i, s, at, MakeRequest(l, domain).value.cache);
    TakenAt(decode, mem, pages, lists, fls, mem', pages', lists', fls', i, s, at);
  }

  lemma TakenAt(decode: Codec, mem: Memory, pages: seq<Slab>, lists: seq<nat>, fls: seq<seq<nat>>, mem': Memory,
      pages': seq<Slab>, lists': seq<nat>, fls': seq<seq<nat>>, i: nat, s: nat, at: nat)
    requires HeapOk(mem, decode, pages, lists, fls) && HeapOk(mem', decode, pages', lists', fls')
      && Took(pages, pages', i, s, at)
    ensures |pages'| == |pages| && at + Pow2(ShiftOf(pages[i].cache)) <= SlabHeap.End(pages) == SlabHeap.End(pages')
  {
    assert Intact(mem', decode, pages', fls', |pages| - 1);
    SlotBelowEnd(decode, mem, pages, lists, fls, i, s);
  }

  lemma GivenAt(decode: Codec, mem: Memory, pages: seq<Slab>, lists: seq<nat>, fls: seq<seq<nat>>, mem': Memory,
      pages': seq<Slab>, lists': seq<nat>, fls': seq<seq<nat>>, i: nat, s: nat, at: nat)
    requires HeapOk(mem, decode, pages, lists, fls) && HeapOk(mem', decode, pages', lists', fls')
      && Gave(pages, pages', i, s, at)
    ensures |pages'| == |pages| && at + pages'[i].stride <= SlabHeap.End(pages) == SlabHeap.End(pages')
  {
    assert Intact(mem, decode, pages, fls, i) && Intact(mem', decode, pages', fls', |pages| - 1);
    SlotBelowEnd(decode, mem, pages, lists, fls, i, s);
  }

  lemma SlotBelowEnd(decode: Codec, mem: Memory, pages: seq<Slab>, lists: seq<nat>, fls: seq<seq<nat>>, i: nat, s: nat)
    requires HeapOk(mem, decode, pages, lists, fls) && i < |pages| && pages[i].stride > 0 && s < Count(pages[i])
    ensures Addr(pages[i], s) + pages[i].stride <= SlabHeap.End(pages) && Shaped(pages[|pages| - 1])
  {
    var n := |pages| - 1;
    assert Intact(mem, decode, pages, fls, i) && Intact(mem, decode, pages, fls, n);
    SlotOfAddr(pages[i], s);
    OrderedAt(pages, i, n);
  }

  lemma NotFull(mem: Memory, decode: Codec, pages: seq<Slab>, lists: seq<nat>, fls: seq<seq<nat>>)
    requires HeapOk(mem, decode, pages, lists, fls) && pages != [] && pages[|pages| - 1].live == {}
    ensures !NoSlot(pages, pages[|pages| - 1].cache)
  {
    var n := |pages| - 1;
    assert Intact(mem, decode, pages, fls, n);
    SlotsFill(pages[n]);
    assert 0 !in pages[n].live;
  }
}

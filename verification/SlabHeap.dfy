/**
  The slab heap as the object it is (src/memory/slab.rs, Slabs): slabs, cache lists,
  counters and the backing memory, changed in place. `fls` remembers each slab's
  free list as slot numbers.
 */
module SlabHeap {
  import opened Base
  import opened SlabModel

  /** The heap took slot `s` of slab `i` for a caller. */
  ghost predicate Took(pages: seq<Slab>, pages': seq<Slab>, i: nat, s: nat, pointer: nat) {
    && i < |pages| == |pages'| && Shaped(pages[i]) && s < Count(pages[i]) && s !in pages[i].live
    && pointer == Addr(pages[i], s)
    && pages'[i].live == pages[i].live + {s} && pages'[i].base == pages[i].base && pages'[i].stride == pages[i].stride
    && pages'[i].cache == pages[i].cache
    && forall j :: 0 <= j < |pages| && j != i ==> pages'[j] == pages[j]
  }

  /** The heap took back slot `s` of slab `i`. */
  ghost predicate Gave(pages: seq<Slab>, pages': seq<Slab>, i: nat, s: nat, pointer: nat) {
    && i < |pages| == |pages'| && Shaped(pages[i]) && s in pages[i].live && pointer == Addr(pages[i], s)
    && pages'[i] == pages[i].(live := pages[i].live - {s}, head := pointer, free := pages[i].free + 1)
    && forall j :: 0 <= j < |pages| && j != i ==> pages'[j] == pages[j]
  }

  /** Memory changed only in the slot at `pointer`, which is zero but for its first word, the link. */
  ghost predicate Wiped(mem: Memory, mem': Memory, pointer: nat, stride: nat) {
    OnlyOn(mem, mem', pointer, pointer + stride) && ZeroFrom(mem', pointer, 1, Words(stride))
  }

  /** validate_free: the pointer is the start of a slot that is not live. */
  predicate FreeSlotAt(p: Slab, pointer: nat)
    requires p.stride > 0
  { SlotOf(p, pointer).Ok? && SlotOf(p, pointer).value !in p.live }

  /**
    The slot `allocate` takes from a slab with a free one, after checking the head of its list and
    the link it holds.
   */
  function CheckTake(p: Slab, next: nat): (r: Result<nat>)
    requires p.stride > 0
  {
    if !FreeSlotAt(p, p.head) then Err(Corrupt)
    else if next != 0 && (!FreeSlotAt(p, next) || next == p.head) then Err(Corrupt)
    else if (p.free == 1) != (next == 0) then Err(Corrupt)
    else SlotOf(p, p.head)
  }

  ghost predicate Full(p: Slab) { p.stride > 0 && forall s :: 0 <= s < Count(p) ==> s in p.live }

  /** The slot taken is of the layout's cache, large enough, and aligned for it. */
  ghost predicate Serves(pages: seq<Slab>, pages': seq<Slab>, i: nat, s: nat, pointer: nat, l: Layout, domain: nat) {
    && Took(pages, pages', i, s, pointer) && MakeRequest(l, domain).Ok?
    && pages[i].cache == MakeRequest(l, domain).value.cache
    && l.size <= pages[i].stride && pointer % Pow2(l.alignShift) == 0
  }

  /** Slot `s` of slab `i` is live, begins at `pointer` and belongs to cache `c`. */
  ghost predicate Held(pages: seq<Slab>, i: nat, s: nat, pointer: nat, c: nat) {
    i < |pages| && s in pages[i].live && pointer == Addr(pages[i], s) && pages[i].cache == c
  }

  ghost predicate Covers(p: Slab, pointer: nat) { p.base <= pointer < p.base + p.span }

  ghost predicate Begins(p: Slab, s: nat, pointer: nat) { p.stride > 0 && s < Count(p) && pointer == Addr(p, s) }

  /**
    Why a pointer may not be freed as an object of cache `c`: it lies in no slab, inside a slot,
    in another cache's slot, or in a free slot.
   */
  ghost predicate Blames(pages: seq<Slab>, pointer: nat, c: nat, e: Error) {
    match e
    case RangeError => forall i :: 0 <= i < |pages| ==> !Covers(pages[i], pointer)
    case AlignmentError =>
      exists i :: 0 <= i < |pages| && Covers(pages[i], pointer) && forall s: nat :: !Begins(pages[i], s, pointer)
    case LayoutError => exists i, s: nat :: 0 <= i < |pages| && Begins(pages[i], s, pointer) && pages[i].cache != c
    case DoubleFree =>
      exists i, s: nat ::
        0 <= i < |pages| && Begins(pages[i], s, pointer) && pages[i].cache == c && s !in pages[i].live
    case _ => false
  }

  /** How many slabs, from number `k` on, begin at or before `pointer`, counting up to the first that does not. */
  function Partition(pages: seq<Slab>, pointer: nat, k: nat): (n: nat)
    requires k <= |pages|
    ensures k <= n <= |pages| && (forall j :: k <= j < n ==> pages[j].base <= pointer)
      && (n < |pages| ==> pages[n].base > pointer)
    decreases |pages| - k
  { if k < |pages| && pages[k].base <= pointer then Partition(pages, pointer, k + 1) else k }

  /** Where the last slab ends. */
  function End(pages: seq<Slab>): (a: nat)
    requires pages != []
  { pages[|pages| - 1].base + pages[|pages| - 1].span }

  /** Fresh backing memory. */
  ghost predicate ZeroBlock(mem: Memory, base: nat, span: nat)
  {
    forall x :: base <= x < base + span ==> Load(mem, x) == ZERO
  }

  class Slabs {
    var pages: seq<Slab>
    var lists: seq<nat>
    var secret: Word
    var liveBytes: nat
    var reservedBytes: nat
    var allocations: nat
    var mem: Memory
    ghost var fls: seq<seq<nat>>

    ghost predicate Valid()
      reads this
    {
      && |pages| <= MAX_SLABS && HeapOk(mem, CodecFor(secret), pages, lists, fls)
      && liveBytes == LiveBytes(pages) && reservedBytes == Reserved(pages) && allocations == LiveCount(pages)
    }

    constructor (secret: Word, mem: Memory)
      ensures Valid() && pages == [] && this.mem == mem && this.secret == secret
    {
      this.pages, this.fls, this.secret, this.mem := [], [], secret, mem;
      this.lists := seq(DOMAINS * CLASSES, _ => 0);
      this.liveBytes, this.reservedBytes, this.allocations := 0, 0, 0;
    }

    method ReadLink(pointer: nat) returns (next: nat)
      ensures next == CodecFor(secret)(Load(mem, pointer), pointer)
    {
      next := Decode(Load(mem, pointer), secret, pointer);
    }

    /** Takes the first free slot of slab `i`, checking its links on the way. */
    method TakeFrom(i: nat) returns (r: Result<nat>)
      requires Valid() && i < |pages| && pages[i].free != 0
      modifies this
      ensures Valid() && r.Ok? && lists == old(lists) && secret == old(secret)
      ensures exists s: nat :: Took(old(pages), pages, i, s, r.value)
      ensures OnlyOn(old(mem), mem, r.value, r.value + pages[i].stride)
        && ZeroFrom(mem, r.value, 0, Words(pages[i].stride))
      ensures allocations == old(allocations) + 1 && liveBytes == old(liveBytes) + pages[i].stride
    {
      var p := pages[i];
      TakeChecks(mem, CodecFor(secret), pages, fls, i);
      var next := ReadLink(p.head);
      var slot := CheckTake(p, next);
      if slot.Err? { return Err(Corrupt); }
      var p' := p.(live := p.live + {slot.value}, head := next, free := p.free - 1);
      TakeStep(mem, CodecFor(secret), pages, lists, fls, i, p', mem[p.head := ZERO]);
      Change(i, p', mem[p.head := ZERO], fls[i][1..], liveBytes + p.stride, allocations + 1);
      r := Ok(p.head);
    }

    /**
      allocate: a free slot of the layout's cache, or nothing when every slab of the cache is
      full. No integrity check fails; the slot is nobody else's, aligned and all zeros.
     */
    method Allocate(l: Layout, domain: nat) returns (r: Result<Option<nat>>)
      requires Valid()
      modifies this
      ensures Valid() && secret == old(secret) && lists == old(lists)
      ensures (r.Err? <==> MakeRequest(l, domain).Err?) && (r.Err? ==> r.error == LayoutError)
      ensures r.Err? || r.value.None? ==> pages == old(pages) && mem == old(mem)
      ensures r.Ok? && r.value.None? ==>
        forall i :: 0 <= i < |pages| && pages[i].cache == MakeRequest(l, domain).value.cache ==> Full(pages[i])
      ensures r.Ok? && r.value.Some? ==>
        exists i: nat, s: nat :: Serves(old(pages), pages, i, s, r.value.value, l, domain)
      ensures r.Ok? && r.value.Some? ==>
        OnlyOn(old(mem), mem, r.value.value, r.value.value + MakeRequest(l, domain).value.stride)
      ensures r.Ok? && r.value.Some? ==> ZeroFrom(mem, r.value.value, 0, Words(MakeRequest(l, domain).value.stride))
    {
      var req := MakeRequest(l, domain);
      if req.Err? { return Err(LayoutError); }
      RequestServed(l, domain);
      r := AllocateIn(req.value.cache);
      if r.Ok? && r.value.Some? {
        ghost var i: nat, s: nat :| Took(old(pages), pages, i, s, r.value.value) && pages[i].cache == req.value.cache;
        TookServes(old(pages), pages, i, s, r.value.value, l, domain);
      }
    }

    /** Takes a free slot of the first slab of cache `c` that has one. */
    method AllocateIn(c: nat) returns (r: Result<Option<nat>>)
      requires Valid() && c < DOMAINS * CLASSES
      modifies this
      ensures Valid() && r.Ok? && secret == old(secret) && lists == old(lists)
      ensures r.value.None? ==>
        pages == old(pages) && mem == old(mem) && forall i :: 0 <= i < |pages| && pages[i].cache == c ==> Full(pages[i])
      ensures r.value.Some? ==>
        exists i: nat, s: nat :: Took(old(pages), pages, i, s, r.value.value) && pages[i].cache == c
      ensures r.value.Some? ==>
        OnlyOn(old(mem), mem, r.value.value, r.value.value + Pow2(ShiftOf(c)))
        && ZeroFrom(mem, r.value.value, 0, Words(Pow2(ShiftOf(c))))
    {
      assert HeadIs(pages, lists, c);
      var cursor: nat, visited: nat := lists[c], 0;
      while cursor != 0
        invariant Valid() && unchanged(this) && cursor <= |pages| && visited + cursor <= |pages|
        invariant cursor > 0 ==> pages[cursor - 1].cache == c
        invariant forall j :: cursor <= j < |pages| && pages[j].cache == c ==> Full(pages[j])
        decreases cursor
      {
        if cursor > |pages| || visited >= |pages| { return Err(Corrupt); }
        visited := visited + 1;
        var p := pages[cursor - 1];
        if p.cache != c { return Err(Corrupt); }
        if p.free != 0 {
          var taken := TakeFrom(cursor - 1);
          return Ok(Some(taken.value));
        }
        EmptyIsFull(mem, CodecFor(secret), pages, fls, cursor - 1);
        if p.head != 0 { return Err(Corrupt); }
        assert NextIs(pages, cursor - 1);
        NextSkips(pages, cursor - 1);
        cursor := p.next;
      }
      r := Ok(None);
    }

    /** Clears the slot at `pointer` word by word. */
    method EraseSlot(pointer: nat, stride: nat) returns (m: Memory)
      requires stride >= 16
      ensures OnlyOn(mem, m, pointer, pointer + stride) && ZeroFrom(m, pointer, 0, Words(stride))
    {
      m := mem;
      for k := 0 to Words(stride)
        invariant OnlyOn(mem, m, pointer, pointer + stride) && ZeroFrom(m, pointer, 0, k)
      {
        m := m[WordAddr(pointer, k) := ZERO];
      }
    }

    /** The slot's contents once it is free: the encoded link to the old head, then zeros. */
    method WriteLink(m: Memory, pointer: nat, head: nat, stride: nat, ghost was: Memory) returns (m': Memory)
      requires stride >= 16 && OnlyOn(was, m, pointer, pointer + stride) && ZeroFrom(m, pointer, 0, Words(stride))
        && head < Pow2(BITS)
      ensures OnlyOn(was, m', pointer, pointer + stride) && ZeroFrom(m', pointer, 1, Words(stride))
        && CodecFor(secret)(Load(m', pointer), pointer) == head
    {
      m' := m[pointer := Encode(head, secret, pointer)];
      DecodeEncode(head, secret, pointer);
      forall i | 1 <= i < Words(stride)
        ensures Load(m', WordAddr(pointer, i)) == ZERO
      {
        assert Load(m, WordAddr(pointer, i)) == ZERO;
      }
    }

    /** Puts slot `slot` of slab `i` back, erased. */
    method GiveBack(i: nat, slot: nat, pointer: nat)
      requires Valid() && i < |pages| && slot in pages[i].live && pointer == Addr(pages[i], slot)
      modifies this
      ensures Valid() && lists == old(lists) && secret == old(secret)
      ensures Gave(old(pages), pages, i, slot, pointer) && Wiped(old(mem), mem, pointer, pages[i].stride)
      ensures fls == old(fls)[i := [slot] + old(fls)[i]]
        && CodecFor(secret)(Load(mem, pointer), pointer) == old(pages)[i].head
      ensures allocations == old(allocations) - 1 && liveBytes == old(liveBytes) - pages[i].stride
    {
      var p := pages[i];
      ghost var fl := fls[i];
      GiveReady(mem, CodecFor(secret), pages, fls, i);
      var m := EraseSlot(pointer, p.stride);
      m := WriteLink(m, pointer, p.head, p.stride, mem);
      var p' := p.(live := p.live - {slot}, head := pointer, free := p.free + 1);
      GiveStep(mem, CodecFor(secret), pages, lists, fls, i, slot, p', m);
      Change(i, p', m, [slot] + fl, liveBytes - p.stride, allocations - 1);
    }

    /**
      deallocate: succeeds exactly for the start of a live slot of the layout's cache, which is
      erased and free afterwards. Any other call is refused, changes nothing, and is never taken
      for a corrupted heap.
     */
    method Deallocate(pointer: nat, l: Layout, domain: nat) returns (r: Result<bool>)
      requires Valid()
      modifies this
      ensures Valid() && lists == old(lists) && secret == old(secret)
      ensures r.Ok? <==>
        MakeRequest(l, domain).Ok?
        && exists i: nat, s: nat :: Held(old(pages), i, s, pointer, MakeRequest(l, domain).value.cache)
      ensures r.Err? ==> pages == old(pages) && mem == old(mem)
      ensures r.Err? ==>
        if MakeRequest(l, domain).Err? then r.error == LayoutError
        else Blames(pages, pointer, MakeRequest(l, domain).value.cache, r.error)
      ensures r.Ok? ==>
        exists i: nat, s: nat ::
          Gave(old(pages), pages, i, s, pointer) && Wiped(old(mem), mem, pointer, pages[i].stride)
    {
      var req := MakeRequest(l, domain);
      if req.Err? { return Err(LayoutError); }
      r := DeallocateIn(pointer, req.value.cache);
    }

    method DeallocateIn(pointer: nat, c: nat) returns (r: Result<bool>)
      requires Valid()
      modifies this
      ensures Valid() && lists == old(lists) && secret == old(secret)
      ensures r.Ok? <==> exists i: nat, s: nat :: Held(old(pages), i, s, pointer, c)
      ensures r.Err? ==> pages == old(pages) && mem == old(mem) && Blames(pages, pointer, c, r.error)
      ensures r.Ok? ==>
        exists i: nat, s: nat ::
          Gave(old(pages), pages, i, s, pointer) && Wiped(old(mem), mem, pointer, pages[i].stride)
    {
      var index := Partition(pages, pointer, 0);
      HeldExactly(mem, CodecFor(secret), pages, fls, pointer, c, index);
      Blamed(mem, CodecFor(secret), pages, fls, pointer, c, index);
      if index == 0 { return Err(RangeError); }
      var p := pages[index - 1];
      var slot := SlotIn(p, pointer);
      if slot.Err? { return Err(slot.error); }
      if p.cache != c { return Err(LayoutError); }
      if slot.value !in p.live { return Err(DoubleFree); }
      if p.free != 0 && !FreeSlotAt(p, p.head) { return Err(Corrupt); }
      if p.free == 0 && p.head != 0 { return Err(Corrupt); }
      GiveBack(index - 1, slot.value, pointer);
      r := Ok(true);
    }

    /** A random order of the numbers below `count`. */
    method Shuffle(count: nat, draws: seq<nat>) returns (order: array<nat>)
      requires 1 <= count <= 256 && |draws| >= count
      ensures fresh(order) && order.Length == count && IsOrder(order[..], count)
    {
      order := new nat[count](i => i);
      Unshuffled(order[..], count);
      var i := count - 1;
      while i > 0
        invariant i < count && IsOrder(order[..], count)
      {
        var j := draws[i] % (i + 1);
        ghost var was := order[..];
        order[i], order[j] := order[j], order[i];
        assert order[..] == was[i := was[j]][j := was[i]];
        SwapOrder(was, count, i, j);
        i := i - 1;
      }
    }

    /** Writes the links of a new slab's free list, in the given order. */
    method ThreadList(base: nat, stride: nat, order: array<nat>) returns (m: Memory)
      requires stride >= 16 && order.Length >= 1 && IsOrder(order[..], order.Length)
        && base + Off(stride, order.Length) < Pow2(BITS)
      requires forall s :: 0 <= s < order.Length ==> CleanSlot(mem, base, stride, s)
      ensures OnlyOn(mem, m, base, base + Off(stride, order.Length))
        && Threaded(m, CodecFor(secret), base, stride, order[..], order.Length)
    {
      m := mem;
      for k := 0 to order.Length
        invariant OnlyOn(mem, m, base, base + Off(stride, order.Length))
          && Threaded(m, CodecFor(secret), base, stride, order[..], k)
      {
        var address := base + Off(stride, order[k]);
        var next := if k + 1 < order.Length then base + Off(stride, order[k + 1]) else 0;
        m := StoreLink(m, address, next, base, stride, order[..], k);
      }
    }

    method StoreLink(m: Memory, address: nat, next: nat, ghost base: nat, ghost stride: nat, ghost order: seq<nat>,
        ghost k: nat) returns (m': Memory)
      requires stride >= 16 && k < |order| && IsOrder(order, |order|) && base + Off(stride, |order|) < Pow2(BITS)
      requires OnlyOn(mem, m, base, base + Off(stride, |order|))
        && Threaded(m, CodecFor(secret), base, stride, order, k)
      requires address == base + Off(stride, order[k]) && next == LinkAfter(base, stride, order, k)
      ensures OnlyOn(mem, m', base, base + Off(stride, |order|))
        && Threaded(m', CodecFor(secret), base, stride, order, k + 1)
    {
      m' := m[address := Encode(next, secret, address)];
      LinkFits(base, stride, order, k);
      DecodeEncode(next, secret, address);
      ThreadStep(m, m', CodecFor(secret), base, stride, order, k, Encode(next, secret, address));
    }

    /** add: a new slab, all of whose slots are free, in random order. */
    method Add(base: nat, req: Request, draws: seq<nat>) returns (r: Result<bool>)
      requires Valid() && |draws| >= 256 && Sized(req)
      requires ZeroBlock(mem, base, req.span)
      modifies this
      ensures Valid() && secret == old(secret)
      ensures r.Ok? <==>
        |old(pages)| < MAX_SLABS && Consistent(req) && base > 0 && base % req.align == 0
        && base + req.span < Pow2(BITS) && (old(pages) != [] ==> base >= End(old(pages)))
      ensures r == Err(LayoutError) <==> |old(pages)| < MAX_SLABS && !Consistent(req)
      ensures r.Err? ==> pages == old(pages) && mem == old(mem) && lists == old(lists)
      ensures r.Ok? ==>
        |pages| == |old(pages)| + 1 && pages[..|old(pages)|] == old(pages)
        && OnlyOn(old(mem), mem, base, base + req.span)
      ensures r.Ok? ==> var p := pages[|pages| - 1];
        p.base == base && p.cache == req.cache && p.live == {} && p.free > 0 && p.stride == req.stride
        && p.span == req.span
    {
      if |pages| >= MAX_SLABS { return Err(Exhausted); }
      if !Consistent(req) { return Err(LayoutError); }
      if base == 0 || base % req.align != 0 || base + req.span >= Pow2(BITS) { return Err(AlignmentError); }
      if pages != [] && base < End(pages) { return Err(RangeError); }
      Lay(base, req, draws);
      r := Ok(true);
    }

    /** The new slab, once nothing speaks against it. */
    method Lay(base: nat, req: Request, draws: seq<nat>)
      requires Valid() && |pages| < MAX_SLABS && |draws| >= 256 && Sized(req) && Consistent(req)
        && ZeroBlock(mem, base, req.span)
      requires base > 0 && base % req.align == 0 && base + req.span < Pow2(BITS) && (pages != [] ==> base >= End(pages))
      modifies this
      ensures Valid() && secret == old(secret)
      ensures |pages| == |old(pages)| + 1 && pages[..|old(pages)|] == old(pages)
        && OnlyOn(old(mem), mem, base, base + req.span)
      ensures var p := pages[|pages| - 1];
        p.base == base && p.cache == req.cache && p.live == {} && p.free > 0 && p.stride == req.stride
        && p.span == req.span
    {
      var p, m, fl := Thread(Slab(base, req.span, req.stride, req.cache, lists[req.cache], 0, 0, {}), draws);
      Append(p, m, fl);
    }

    /** A random free list through all the slots of a slab to be. */
    method Thread(p: Slab, draws: seq<nat>) returns (p': Slab, m: Memory, ghost fl: seq<nat>)
      requires Shaped(p) && p.live == {} && ZeroBlock(mem, p.base, p.span) && |draws| >= 256
      ensures FreeList(m, CodecFor(secret), p', fl) && OnlyOn(mem, m, p.base, p.base + p.span) && p'.free > 0
        && p' == p.(head := p'.head, free := p'.free)
    {
      SlotsFill(p);
      var order := Shuffle(Count(p), draws);
      BlockSlots(mem, p);
      m := ThreadList(p.base, p.stride, order);
      p' := p.(head := p.base + Off(p.stride, order[0]), free := order.Length);
      fl := order[..];
      ThreadedList(m, CodecFor(secret), p', fl);
    }

    /** Puts a new slab at the head of its cache's list. */
    method Append(p: Slab, m: Memory, ghost fl: seq<nat>)
      requires Valid() && |pages| < MAX_SLABS && FreeList(m, CodecFor(secret), p, fl)
        && OnlyOn(mem, m, p.base, p.base + p.span)
      requires p.live == {} && p.cache < |lists| && p.next == lists[p.cache] && (pages != [] ==> End(pages) <= p.base)
      modifies this`pages, this`lists, this`fls, this`mem, this`reservedBytes
      ensures Valid() && pages == old(pages) + [p] && mem == m
    {
      HeapGrows(mem, m, CodecFor(secret), pages, lists, fls, p, fl);
      pages, lists, fls, mem := pages + [p], lists[p.cache := |pages| + 1], fls + [fl], m;
      reservedBytes := reservedBytes + p.span;
    }

    /** A client writes a word of a slot it holds; the heap stays intact. */
    method ClientWrite(i: nat, s: nat, k: nat, w: Word)
      requires Valid() && i < |pages| && s in pages[i].live && pages[i].stride > 0 && k < Words(pages[i].stride)
      modifies this`mem
      ensures Valid() && mem == old(mem)[WordAddr(Addr(pages[i], s), k) := w]
    {
      ClientStep(mem, CodecFor(secret), pages, lists, fls, i, s, k, w);
      mem := mem[WordAddr(Addr(pages[i], s), k) := w];
    }

    /** Stores a changed slab, the memory and the counters. */
    method Change(i: nat, p: Slab, mem': Memory, ghost fl: seq<nat>, bytes: nat, count: nat)
      requires i < |pages| <= MAX_SLABS && i < |fls|
        && HeapOk(mem', CodecFor(secret), pages[i := p], lists, fls[i := fl])
      requires bytes == LiveBytes(pages[i := p]) && count == LiveCount(pages[i := p])
        && reservedBytes == Reserved(pages[i := p])
      modifies this`pages, this`mem, this`fls, this`liveBytes, this`allocations
      ensures Valid() && pages == old(pages)[i := p] && mem == mem' && fls == old(fls)[i := fl] && liveBytes == bytes
        && allocations == count
    {
      pages, mem, fls, liveBytes, allocations := pages[i := p], mem', fls[i := fl], bytes, count;
    }
  }

  /** Taking the first free slot of slab `i` keeps the heap intact. */
  lemma TakeStep(mem: Memory, decode: Codec, pages: seq<Slab>, lists: seq<nat>, fls: seq<seq<nat>>, i: nat, p': Slab,
      mem': Memory)
    requires HeapOk(mem, decode, pages, lists, fls) && i < |pages| && fls[i] != [] && pages[i].free > 0
      && mem' == mem[pages[i].head := ZERO]
    requires p' == pages[i].(live := pages[i].live + {fls[i][0]}, head := ListAt(pages[i], fls[i], 1),
      free := pages[i].free - 1)
    ensures HeapOk(mem', decode, pages[i := p'], lists, fls[i := fls[i][1..]])
    ensures Took(pages, pages[i := p'], i, fls[i][0], pages[i].head)
    ensures ZeroFrom(mem', pages[i].head, 0, Words(p'.stride))
      && OnlyOn(mem, mem', pages[i].head, pages[i].head + p'.stride)
    ensures LiveCount(pages[i := p']) == LiveCount(pages) + 1
      && LiveBytes(pages[i := p']) == LiveBytes(pages) + p'.stride && Reserved(pages[i := p']) == Reserved(pages)
  {
    var p, fl := pages[i], fls[i];
    assert Intact(mem, decode, pages, fls, i);
    Pop(mem, decode, p, fl, p', mem');
    SlotOfAddr(p, fl[0]);
    SlotsFill(p);
    WriteInside(mem, p.head, ZERO, p.base, p.base + p.span);
    WriteInside(mem, p.head, ZERO, p.head, p.head + p.stride);
    HeapStep(mem, mem', decode, pages, lists, fls, i, p', fl[1..]);
    CountsUp(pages, i, p', fl[0]);
  }

  lemma CountsUp(pages: seq<Slab>, i: nat, p': Slab, s: nat)
    requires i < |pages| && p'.stride == pages[i].stride && p'.span == pages[i].span && s !in pages[i].live
      && p'.live == pages[i].live + {s}
    ensures LiveCount(pages[i := p']) == LiveCount(pages) + 1
      && LiveBytes(pages[i := p']) == LiveBytes(pages) + p'.stride && Reserved(pages[i := p']) == Reserved(pages)
  {
    CountsStep(pages, i, p');
    var n := |pages[i].live|;
    assert |p'.live| == n + 1;
    assert (n + 1) * p'.stride == n * p'.stride + p'.stride;
  }

  /** The checks find nothing wrong with a slab whose list is intact. */
  lemma TakeChecks(mem: Memory, decode: Codec, pages: seq<Slab>, fls: seq<seq<nat>>, i: nat)
    requires AllLists(mem, decode, pages, fls) && i < |pages| && pages[i].free != 0
    ensures pages[i].stride > 0 && fls[i] != []
      && decode(Load(mem, pages[i].head), pages[i].head) == ListAt(pages[i], fls[i], 1)
    ensures CheckTake(pages[i], ListAt(pages[i], fls[i], 1)) == Ok(fls[i][0])
  {
    var p, fl := pages[i], fls[i];
    assert Intact(mem, decode, pages, fls, i);
    SlotOfAddr(p, fl[0]);
    SlotsFill(p);
    assert Linked(mem, decode, p, fl, 0);
    if |fl| > 1 {
      SlotOfAddr(p, fl[1]);
      SlotsApart(p, fl[0], fl[1]);
    }
  }

  lemma WriteInside(mem: Memory, x: nat, w: Word, lo: nat, hi: nat)
    requires lo <= x < hi
    ensures OnlyOn(mem, mem[x := w], lo, hi)
  {}

  lemma EmptyIsFull(mem: Memory, decode: Codec, pages: seq<Slab>, fls: seq<seq<nat>>, i: nat)
    requires AllLists(mem, decode, pages, fls) && i < |pages| && pages[i].free == 0
    ensures Full(pages[i]) && pages[i].head == 0
  {
    assert Intact(mem, decode, pages, fls, i);
    SlotsFill(pages[i]);
  }

  lemma NextSkips(pages: seq<Slab>, i: nat)
    requires i < |pages| && NextIs(pages, i)
    ensures pages[i].next <= i && (pages[i].next > 0 ==> pages[pages[i].next - 1].cache == pages[i].cache)
    ensures forall j :: pages[i].next <= j < i ==> pages[j].cache != pages[i].cache
  {
    var k := Last(pages[..i], pages[i].cache);
    forall j | k <= j < i ensures pages[j].cache != pages[i].cache { assert pages[..i][j] == pages[j]; }
  }

  lemma Multiple(d: nat, k: nat)
    requires d > 0
    ensures (d * k) % d == 0
  {
    DivMod(d * k, d, k, 0);
  }

  /** A power of two divides every larger one. */
  lemma Pow2Divides(a: nat, b: nat) returns (q: nat)
    requires a <= b
    ensures Pow2(b) == Pow2(a) * q
  {
    Pow2Splits(a, b - a);
    q := Pow2(b - a);
  }

  lemma Sum(d: nat, x: nat, y: nat)
    ensures d * x + d * y == d * (x + y)
  {}

  lemma SpanShift(p: Slab) returns (k: nat)
    requires Shaped(p)
    ensures p.span == Pow2(k) && k >= ShiftOf(p.cache)
  {
    k := ShiftOf(p.cache);
    Pow2Twelve();
    Pow2Order(k, 12);
    Pow2Order(12, k);
    if k < 12 { k := 12; }
  }

  lemma Quotient(x: nat, d: nat) returns (n: nat)
    requires d > 0 && x % d == 0
    ensures x == d * n
  {
    n := x / d;
  }

  lemma BaseMultiple(p: Slab, a: nat) returns (u: nat)
    requires Shaped(p) && a <= ShiftOf(p.cache)
    ensures p.base == Pow2(a) * u
  {
    var k := SpanShift(p);
    var m := Pow2Divides(a, k);
    var n := Quotient(p.base, p.span);
    Regroup(p.base, p.span, n, Pow2(a), m);
    u := m * n;
  }

  lemma OffMultiple(p: Slab, s: nat, a: nat) returns (v: nat)
    requires Shaped(p) && a <= ShiftOf(p.cache)
    ensures Off(p.stride, s) == Pow2(a) * v
  {
    var q := Pow2Divides(a, ShiftOf(p.cache));
    OffSplits(p.stride, s, Pow2(a), q);
    v := q * s;
  }

  lemma OffSplits(stride: nat, s: nat, c: nat, q: nat)
    requires stride == c * q
    ensures Off(stride, s) == c * (q * s)
  {
    OffIs(stride, s);
    Regroup(stride * s, stride, s, c, q);
  }

  /** Slots are aligned to their size, so to any smaller power of two. */
  lemma AddrAligned(p: Slab, s: nat, a: nat)
    requires Shaped(p) && a <= ShiftOf(p.cache)
    ensures Addr(p, s) % Pow2(a) == 0
  {
    var u := BaseMultiple(p, a);
    var v := OffMultiple(p, s, a);
    Sum(Pow2(a), u, v);
    Multiple(Pow2(a), u + v);
  }

  lemma Regroup(x: nat, y: nat, n: nat, d: nat, m: nat)
    requires x == y * n && y == d * m
    ensures x == d * (m * n)
  {}

  lemma TookServes(pages: seq<Slab>, pages': seq<Slab>, i: nat, s: nat, pointer: nat, l: Layout, domain: nat)
    requires Took(pages, pages', i, s, pointer) && MakeRequest(l, domain).Ok?
      && pages[i].cache == MakeRequest(l, domain).value.cache
    ensures Serves(pages, pages', i, s, pointer, l, domain)
  {
    RequestServed(l, domain);
    AddrAligned(pages[i], s, l.alignShift);
  }

  /** SlotOf on any slab. */
  function SlotIn(p: Slab, pointer: nat): (r: Result<nat>)
  {
    if p.stride > 0 then SlotOf(p, pointer) else Err(RangeError)
  }

  /** Whether the slab the search finds holds a live slot of cache `c` that begins at `pointer`. */
  ghost predicate FoundHeld(pages: seq<Slab>, pointer: nat, c: nat, index: nat)
    requires index <= |pages|
  {
    index > 0 && SlotIn(pages[index - 1], pointer).Ok? && pages[index - 1].cache == c
      && SlotIn(pages[index - 1], pointer).value in pages[index - 1].live
  }

  lemma OrderedAt(pages: seq<Slab>, i: nat, j: nat)
    requires Ordered(pages) && i < |pages| && j < |pages|
    ensures i < j ==> pages[i].base + pages[i].span <= pages[j].base
  {
    assert i < j ==> Below(pages, i, j);
  }

  /** The search finds the slab whose span holds the pointer. */
  lemma FoundSlab(pages: seq<Slab>, pointer: nat, index: nat, i: nat)
    requires Ordered(pages) && index == Partition(pages, pointer, 0) && i < |pages|
      && pages[i].base <= pointer < pages[i].base + pages[i].span
    ensures index == i + 1
  {
    if index < |pages| { OrderedAt(pages, index, i); }
    if index > 0 { OrderedAt(pages, i, index - 1); }
  }

  lemma HeldFound(mem: Memory, decode: Codec, pages: seq<Slab>, fls: seq<seq<nat>>, pointer: nat, c: nat, index: nat,
      i: nat, s: nat)
    requires Ordered(pages) && AllLists(mem, decode, pages, fls) && index == Partition(pages, pointer, 0)
      && Held(pages, i, s, pointer, c)
    ensures FoundHeld(pages, pointer, c, index)
  {
    assert Intact(mem, decode, pages, fls, i);
    SlotsFill(pages[i]);
    SlotOfAddr(pages[i], s);
    FoundSlab(pages, pointer, index, i);
  }

  /** The only live slot a pointer can be the start of is in the slab the search finds, and that slab's checks pass. */
  lemma HeldExactly(mem: Memory, decode: Codec, pages: seq<Slab>, fls: seq<seq<nat>>, pointer: nat, c: nat, index: nat)
    requires Ordered(pages) && AllLists(mem, decode, pages, fls) && index == Partition(pages, pointer, 0)
    ensures FoundHeld(pages, pointer, c, index) <==> exists i: nat, s: nat :: Held(pages, i, s, pointer, c)
    ensures index > 0 ==>
      pages[index - 1].stride > 0
      && (pages[index - 1].free != 0 ==> FreeSlotAt(pages[index - 1], pages[index - 1].head))
      && (pages[index - 1].free == 0 ==> pages[index - 1].head == 0)
    ensures index > 0 && SlotIn(pages[index - 1], pointer).Ok? ==>
      pointer == Addr(pages[index - 1], SlotIn(pages[index - 1], pointer).value)
  {
    if index > 0 {
      var p, fl := pages[index - 1], fls[index - 1];
      assert Intact(mem, decode, pages, fls, index - 1);
      SlotsFill(p);
      if fl != [] { SlotOfAddr(p, fl[0]); }
      if SlotIn(p, pointer).Ok? {
        SlotOfIs(p, pointer);
        assert FoundHeld(pages, pointer, c, index) ==> Held(pages, index - 1, SlotIn(p, pointer).value, pointer, c);
      }
    }
    forall i: nat, s: nat | Held(pages, i, s, pointer, c)
      ensures FoundHeld(pages, pointer, c, index)
    {
      HeldFound(mem, decode, pages, fls, pointer, c, index, i, s);
    }
  }

  /** No slab covers a pointer that the slab the search finds does not. */
  lemma NoSlab(pages: seq<Slab>, pointer: nat, index: nat)
    requires Ordered(pages) && index == Partition(pages, pointer, 0)
      && (index > 0 ==> pointer >= pages[index - 1].base + pages[index - 1].span)
    ensures Blames(pages, pointer, 0, RangeError)
  {
    forall i | 0 <= i < |pages| ensures !Covers(pages[i], pointer) {
      if i < index { OrderedAt(pages, i, index - 1); } else { OrderedAt(pages, index, i); }
    }
  }

  /** What the checks of the slab the search finds say about the pointer. */
  lemma Blamed(mem: Memory, decode: Codec, pages: seq<Slab>, fls: seq<seq<nat>>, pointer: nat, c: nat, index: nat)
    requires Ordered(pages) && AllLists(mem, decode, pages, fls) && index == Partition(pages, pointer, 0)
    ensures index == 0 ==> Blames(pages, pointer, c, RangeError)
    ensures index > 0 ==> var p, slot := pages[index - 1], SlotIn(pages[index - 1], pointer);
      if slot.Err? then Blames(pages, pointer, c, slot.error)
      else if p.cache != c then Blames(pages, pointer, c, LayoutError)
      else slot.value !in p.live ==> Blames(pages, pointer, c, DoubleFree)
  {
    if index == 0 {
      NoSlab(pages, pointer, index);
    } else {
      var p, slot := pages[index - 1], SlotIn(pages[index - 1], pointer);
      assert Intact(mem, decode, pages, fls, index - 1);
      SlotsFill(p);
      if slot.Ok? {
        SlotOfIs(p, pointer);
        assert Begins(p, slot.value, pointer);
      } else if slot.error == RangeError {
        NoSlab(pages, pointer, index);
      } else {
        forall s: nat ensures !Begins(p, s, pointer) { if s < Count(p) { SlotOfAddr(p, s); } }
        assert Covers(p, pointer);
      }
    }
  }

  lemma GiveReady(mem: Memory, decode: Codec, pages: seq<Slab>, fls: seq<seq<nat>>, i: nat)
    requires AllLists(mem, decode, pages, fls) && i < |pages|
    ensures pages[i].stride >= 16 && pages[i].head < Pow2(BITS)
  {
    assert Intact(mem, decode, pages, fls, i);
    SlotsFill(pages[i]);
    HeadFits(pages[i], fls[i]);
  }

  /** Putting a slot back keeps the heap intact. */
  lemma GiveStep(mem: Memory, decode: Codec, pages: seq<Slab>, lists: seq<nat>, fls: seq<seq<nat>>, i: nat, s: nat,
      p': Slab, mem': Memory)
    requires HeapOk(mem, decode, pages, lists, fls) && i < |pages| && s in pages[i].live
    requires p' == pages[i].(live := pages[i].live - {s}, head := Addr(pages[i], s), free := pages[i].free + 1)
    requires OnlyOn(mem, mem', p'.head, p'.head + p'.stride) && ZeroFrom(mem', p'.head, 1, Words(p'.stride))
      && decode(Load(mem', p'.head), p'.head) == pages[i].head
    ensures HeapOk(mem', decode, pages[i := p'], lists, fls[i := [s] + fls[i]])
      && Gave(pages, pages[i := p'], i, s, p'.head)
    ensures LiveCount(pages[i := p']) + 1 == LiveCount(pages)
      && LiveBytes(pages[i := p']) + p'.stride == LiveBytes(pages) && Reserved(pages[i := p']) == Reserved(pages)
  {
    var p, fl := pages[i], fls[i];
    assert Intact(mem, decode, pages, fls, i);
    SlotOfAddr(p, s);
    Push(mem, decode, p, fl, p', mem', s);
    HeapStep(mem, mem', decode, pages, lists, fls, i, p', [s] + fl);
    CountsDown(pages, i, p', s);
  }

  lemma CountsDown(pages: seq<Slab>, i: nat, p': Slab, s: nat)
    requires i < |pages| && p'.stride == pages[i].stride && p'.span == pages[i].span && s in pages[i].live
      && p'.live == pages[i].live - {s}
    ensures LiveCount(pages[i := p']) + 1 == LiveCount(pages)
      && LiveBytes(pages[i := p']) + p'.stride == LiveBytes(pages) && Reserved(pages[i := p']) == Reserved(pages)
  {
    CountsStep(pages, i, p');
    var n := |p'.live|;
    assert |pages[i].live| == n + 1;
    assert (n + 1) * p'.stride == n * p'.stride + p'.stride;
  }

  // ---------------------------------------------------------------- a new slab

  /** A permutation of the numbers below `n`. */
  ghost predicate IsOrder(order: seq<nat>, n: nat) {
    |order| == n && NoDup(order) && (forall i :: 0 <= i < n ==> order[i] < n) && forall s :: 0 <= s < n ==> s in order
  }

  lemma Unshuffled(order: seq<nat>, n: nat)
    requires |order| == n && forall i :: 0 <= i < n ==> order[i] == i
    ensures IsOrder(order, n)
  {
    forall s | 0 <= s < n ensures s in order { assert order[s] == s; }
  }

  lemma SwapOrder(order: seq<nat>, n: nat, i: nat, j: nat)
    requires IsOrder(order, n) && i < n && j < n
    ensures IsOrder(order[i := order[j]][j := order[i]], n)
  {
    var swapped := order[i := order[j]][j := order[i]];
    forall s | 0 <= s < n ensures s in swapped {
      assert s in order;
      var k :| 0 <= k < n && order[k] == s;
      assert swapped[if k == i then j else if k == j then i else k] == s;
    }
  }

  ghost function LinkAfter(base: nat, stride: nat, order: seq<nat>, k: nat): (next: nat)
  {
    if k + 1 < |order| then base + Off(stride, order[k + 1]) else 0
  }

  ghost predicate LinkedTo(m: Memory, decode: Codec, base: nat, stride: nat, order: seq<nat>, i: nat)
    requires i < |order|
  { decode(Load(m, base + Off(stride, order[i])), base + Off(stride, order[i])) == LinkAfter(base, stride, order, i) }

  /** Slot `s` is zero but for its first word. */
  ghost predicate CleanSlot(m: Memory, base: nat, stride: nat, s: nat)
  {
    ZeroFrom(m, base + Off(stride, s), 1, Words(stride))
  }

  /** The first `k` slots hold their links, and all slots are otherwise zero. */
  ghost predicate Threaded(m: Memory, decode: Codec, base: nat, stride: nat, order: seq<nat>, k: nat) {
    && k <= |order| && (forall i :: 0 <= i < k ==> LinkedTo(m, decode, base, stride, order, i))
    && (forall s :: 0 <= s < |order| ==> CleanSlot(m, base, stride, s))
  }

  lemma OffInside(stride: nat, s: nat, n: nat)
    requires s < n
    ensures Off(stride, s) + stride <= Off(stride, n)
  {
    OffGap(stride, s, n);
  }

  lemma LinkFits(base: nat, stride: nat, order: seq<nat>, k: nat)
    requires k < |order| && IsOrder(order, |order|) && base + Off(stride, |order|) < Pow2(BITS)
    ensures LinkAfter(base, stride, order, k) < Pow2(BITS)
      && base + Off(stride, order[k]) + stride <= base + Off(stride, |order|)
  {
    OffInside(stride, order[k], |order|);
    if k + 1 < |order| { OffInside(stride, order[k + 1], |order|); }
  }

  lemma CleanKept(m: Memory, base: nat, stride: nat, s: nat, t: nat, w: Word)
    requires stride >= 16 && CleanSlot(m, base, stride, s)
    ensures CleanSlot(m[base + Off(stride, t) := w], base, stride, s)
  {
    var m', a := m[base + Off(stride, t) := w], base + Off(stride, s);
    if s < t { OffGap(stride, s, t); } else if t < s { OffGap(stride, t, s); }
    forall i | 1 <= i < Words(stride)
      ensures Load(m', WordAddr(a, i)) == ZERO
    {
      assert Load(m, WordAddr(a, i)) == ZERO;
    }
  }

  lemma LinkKept(m: Memory, decode: Codec, base: nat, stride: nat, order: seq<nat>, i: nat, k: nat, w: Word)
    requires stride >= 16 && i < |order| && k < |order| && order[i] != order[k]
      && LinkedTo(m, decode, base, stride, order, i)
    ensures LinkedTo(m[base + Off(stride, order[k]) := w], decode, base, stride, order, i)
  {
    if order[i] < order[k] { OffGap(stride, order[i], order[k]); } else { OffGap(stride, order[k], order[i]); }
  }

  lemma ThreadStep(m: Memory, m': Memory, decode: Codec, base: nat, stride: nat, order: seq<nat>, k: nat, w: Word)
    requires stride >= 16 && k < |order| && IsOrder(order, |order|) && Threaded(m, decode, base, stride, order, k)
    requires m' == m[base + Off(stride, order[k]) := w]
      && decode(w, base + Off(stride, order[k])) == LinkAfter(base, stride, order, k)
    ensures Threaded(m', decode, base, stride, order, k + 1)
  {
    forall i | 0 <= i < k + 1 ensures LinkedTo(m', decode, base, stride, order, i) {
      if i < k {
        assert LinkedTo(m, decode, base, stride, order, i);
        LinkKept(m, decode, base, stride, order, i, k, w);
      }
    }
    forall s | 0 <= s < |order| ensures CleanSlot(m', base, stride, s) {
      assert CleanSlot(m, base, stride, s);
      CleanKept(m, base, stride, s, order[k], w);
    }
  }

  /** A threaded slab is one long free list. */
  lemma ThreadedList(m: Memory, decode: Codec, p: Slab, order: seq<nat>)
    requires Shaped(p) && p.live == {} && p.free == Count(p) == |order| && IsOrder(order, |order|)
      && p.head == Addr(p, order[0])
    requires Threaded(m, decode, p.base, p.stride, order, |order|)
    ensures FreeList(m, decode, p, order)
  {
    forall i | 0 <= i < |order| ensures Linked(m, decode, p, order, i) {
      assert LinkedTo(m, decode, p.base, p.stride, order, i) && CleanSlot(m, p.base, p.stride, order[i]);
    }
  }

  /** The heap with one more slab at the end of its cache's list. */
  lemma HeapGrows(mem: Memory, mem': Memory, decode: Codec, pages: seq<Slab>, lists: seq<nat>, fls: seq<seq<nat>>,
      p: Slab, fl: seq<nat>)
    requires HeapOk(mem, decode, pages, lists, fls) && FreeList(mem', decode, p, fl)
      && OnlyOn(mem, mem', p.base, p.base + p.span) && p.next == lists[p.cache]
    requires pages != [] ==> End(pages) <= p.base
    ensures HeapOk(mem', decode, pages + [p], lists[p.cache := |pages| + 1], fls + [fl])
    ensures LiveCount(pages + [p]) == LiveCount(pages) + |p.live|
      && LiveBytes(pages + [p]) == LiveBytes(pages) + |p.live| * p.stride
      && Reserved(pages + [p]) == Reserved(pages) + p.span
  {
    var pages', fls', n := pages + [p], fls + [fl], |pages|;
    assert pages'[..n] == pages;
    OrderedGrows(pages, p);
    GrownLists(pages, lists, p);
    forall i | 0 <= i < |pages'| ensures Intact(mem', decode, pages', fls', i) {
      if i < n {
        assert Intact(mem, decode, pages, fls, i);
        OrderedAt(pages', i, n);
        BelowKept(mem, mem', decode, pages[i], fls[i], p);
      }
    }
  }

  lemma OrderedGrows(pages: seq<Slab>, p: Slab)
    requires Ordered(pages) && (pages != [] ==> End(pages) <= p.base)
    ensures Ordered(pages + [p])
  {
    var pages', n := pages + [p], |pages|;
    forall i, j | 0 <= i < j < |pages'| ensures Below(pages', i, j) {
      if j < n { OrderedAt(pages, i, j); } else { OrderedAt(pages, i, n - 1); }
    }
  }

  lemma BelowKept(mem: Memory, mem': Memory, decode: Codec, q: Slab, fl: seq<nat>, p: Slab)
    requires FreeList(mem, decode, q, fl) && OnlyOn(mem, mem', p.base, p.base + p.span) && q.base + q.span <= p.base
    ensures FreeList(mem', decode, q, fl)
  {
    forall k | 0 <= k < |fl|
      ensures SameOn(mem, mem', Addr(q, fl[k]), Addr(q, fl[k]) + q.stride)
    {
      SlotOfAddr(q, fl[k]);
    }
    ListKept(mem, mem', decode, q, fl);
  }

  lemma GrownLists(pages: seq<Slab>, lists: seq<nat>, p: Slab)
    requires Listed(pages, lists) && p.cache < |lists| && p.next == lists[p.cache]
    ensures Listed(pages + [p], lists[p.cache := |pages| + 1])
  {
    var pages', lists' := pages + [p], lists[p.cache := |pages| + 1];
    assert pages'[..|pages|] == pages;
    forall c | 0 <= c < |lists'| ensures HeadIs(pages', lists', c) {
      assert HeadIs(pages, lists, c);
      LastIs(pages', c, if c == p.cache then |pages| + 1 else Last(pages, c));
    }
    forall i | 0 <= i < |pages'| ensures NextIs(pages', i) {
      if i < |pages| {
        assert NextIs(pages, i) && pages'[..i] == pages[..i];
      } else {
        assert HeadIs(pages, lists, p.cache);
      }
    }
  }

  lemma BlockSlots(mem: Memory, p: Slab)
    requires Shaped(p) && ZeroBlock(mem, p.base, p.span)
    ensures forall s :: 0 <= s < Count(p) ==> CleanSlot(mem, p.base, p.stride, s)
  {
    forall s | 0 <= s < Count(p) ensures CleanSlot(mem, p.base, p.stride, s) {
      SlotOfAddr(p, s);
      forall i | 1 <= i < Words(p.stride) ensures Load(mem, WordAddr(Addr(p, s), i)) == ZERO { }
    }
  }

  // ---------------------------------------------------------------- what the invariant gives

  lemma ClientStep(mem: Memory, decode: Codec, pages: seq<Slab>, lists: seq<nat>, fls: seq<seq<nat>>, i: nat, s: nat,
      k: nat, w: Word)
    requires HeapOk(mem, decode, pages, lists, fls) && i < |pages| && s in pages[i].live && k < Words(pages[i].stride)
    ensures HeapOk(mem[WordAddr(Addr(pages[i], s), k) := w], decode, pages, lists, fls)
  {
    var p, fl, x := pages[i], fls[i], WordAddr(Addr(pages[i], s), k);
    assert Intact(mem, decode, pages, fls, i);
    SlotOfAddr(p, s);
    forall j | 0 <= j < |fl| ensures SameOn(mem, mem[x := w], Addr(p, fl[j]), Addr(p, fl[j]) + p.stride) {
      SlotsApart(p, s, fl[j]);
      WriteApart(mem, x, w, Addr(p, fl[j]), Addr(p, fl[j]) + p.stride);
    }
    ListKept(mem, mem[x := w], decode, p, fl);
    WriteInside(mem, x, w, p.base, p.base + p.span);
    HeapStep(mem, mem[x := w], decode, pages, lists, fls, i, p, fl);
    assert pages[i := p] == pages && fls[i := fl] == fls;
  }

  /** The addresses met when links are decoded from `a` on, `n` times. */
  function Follow(mem: Memory, decode: Codec, a: nat, n: nat): (r: seq<nat>)
    ensures |r| == n
    decreases n
  { if n == 0 then [] else [a] + Follow(mem, decode, decode(Load(mem, a), a), n - 1) }

  /** Where decoding has got to after `n` links. */
  function Reached(mem: Memory, decode: Codec, a: nat, n: nat): (r: nat)
    decreases n
  { if n == 0 then a else Reached(mem, decode, decode(Load(mem, a), a), n - 1) }

  lemma {:induction false} FollowFrom(mem: Memory, decode: Codec, p: Slab, fl: seq<nat>, i: nat)
    requires AllLinked(mem, decode, p, fl) && i <= |fl|
    ensures Reached(mem, decode, ListAt(p, fl, i), |fl| - i) == 0
    ensures forall j {:trigger fl[j]} :: i <= j < |fl| ==>
      Follow(mem, decode, ListAt(p, fl, i), |fl| - i)[j - i] == Addr(p, fl[j])
    decreases |fl| - i
  {
    if i < |fl| {
      assert Linked(mem, decode, p, fl, i);
      FollowFrom(mem, decode, p, fl, i + 1);
    }
  }

  /** Decoding from the head visits every slot that is not live exactly once, and ends at 0. */
  lemma DecodedList(mem: Memory, decode: Codec, p: Slab, fl: seq<nat>)
    requires FreeList(mem, decode, p, fl)
    ensures Reached(mem, decode, p.head, p.free) == 0
    ensures var visited := Follow(mem, decode, p.head, p.free);
      && NoDup(visited) && forall s :: 0 <= s < Count(p) ==> (s !in p.live <==> Addr(p, s) in visited)
  {
    FollowFrom(mem, decode, p, fl, 0);
    var visited := Follow(mem, decode, p.head, p.free);
    forall i, j | 0 <= i < j < |visited| ensures visited[i] != visited[j] { SlotsApart(p, fl[i], fl[j]); SlotsFill(p); }
    forall s | 0 <= s < Count(p) ensures s !in p.live <==> Addr(p, s) in visited {
      if s !in p.live {
        assert s in fl;
        var i :| 0 <= i < |fl| && fl[i] == s;
        assert visited[i] == Addr(p, s);
      } else {
        forall i | 0 <= i < |visited| ensures visited[i] != Addr(p, s) { SlotsApart(p, fl[i], s); SlotsFill(p); }
      }
    }
  }

  /** Live objects never overlap. */
  lemma LiveDisjoint(mem: Memory, decode: Codec, pages: seq<Slab>, lists: seq<nat>, fls: seq<seq<nat>>, i: nat, s: nat,
      j: nat, t: nat)
    requires HeapOk(mem, decode, pages, lists, fls) && i < |pages| && j < |pages| && s in pages[i].live
      && t in pages[j].live && (i != j || s != t)
    ensures Addr(pages[i], s) + pages[i].stride <= Addr(pages[j], t)
      || Addr(pages[j], t) + pages[j].stride <= Addr(pages[i], s)
  {
    if i == j {
      SlotsApart(pages[i], s, t);
    } else {
      assert Intact(mem, decode, pages, fls, i) && Intact(mem, decode, pages, fls, j);
      SlotOfAddr(pages[i], s);
      SlotOfAddr(pages[j], t);
      OrderedAt(pages, i, j);
      OrderedAt(pages, j, i);
    }
  }
}

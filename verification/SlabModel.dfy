/**
  The slab heap's bookkeeping (src/memory/slab.rs) as values: size classes, slots,
  and free lists whose links are stored in the free slots themselves, exclusive-or
  encoded with a secret and the slot's own address.
 */
module SlabModel {
  import opened Base

  const PAGE: nat := 4096
  const DOMAINS: nat := 3
  const CLASSES: nat := 21
  const MIN_SHIFT: nat := 4
  const MAX_SHIFT: nat := 24
  const MAX_SLABS: nat := 4096

  datatype Error = LayoutError | RangeError | AlignmentError | DoubleFree | Corrupt | Exhausted

  datatype Result<+T> = Ok(value: T) | Err(error: Error)

  // ---------------------------------------------------------------- words and exclusive or

  /** A machine word, lowest bit first. */
  type Word = seq<bool>

  const BITS: nat := 64

  function Bits(n: nat, k: nat): (w: Word)
    ensures |w| == k
    decreases k
  { if k == 0 then [] else [n % 2 == 1] + Bits(n / 2, k - 1) }

  function Value(w: Word): (n: nat) { if w == [] then 0 else (if w[0] then 1 else 0) + 2 * Value(w[1..]) }

  lemma {:induction false} ValueBits(n: nat, k: nat)
    requires n < Pow2(k)
    ensures Value(Bits(n, k)) == n
    decreases k
  {
    if k > 0 {
      ValueBits(n / 2, k - 1);
      assert Bits(n, k)[1..] == Bits(n / 2, k - 1);
    }
  }

  predicate Bit(w: Word, i: nat) { i < |w| && w[i] }

  function Xor(a: Word, b: Word): (c: Word)
    ensures |c| == BITS && forall i :: 0 <= i < BITS ==> c[i] == (Bit(a, i) != Bit(b, i))
  { seq(BITS, i requires 0 <= i < BITS => Bit(a, i) != Bit(b, i)) }

  function Encode(link: nat, secret: Word, address: nat): (w: Word)
    ensures |w| == BITS
  { Xor(Xor(Bits(link, BITS), secret), Bits(address, BITS)) }

  function Decode(w: Word, secret: Word, address: nat): (link: nat) { Value(Xor(Xor(w, secret), Bits(address, BITS))) }

  lemma XorTwice(a: Word, b: Word, c: Word)
    requires |a| == BITS
    ensures Xor(Xor(Xor(Xor(a, b), c), b), c) == a
  {}

  /** How the link in a slot's first word is read, given the slot's address. */
  type Codec = (Word, nat) -> nat

  function CodecFor(secret: Word): (c: Codec) { (w: Word, a: nat) => Decode(w, secret, a) }

  /** A link comes back with the same secret and address. */
  lemma DecodeEncode(link: nat, secret: Word, address: nat)
    requires link < Pow2(BITS)
    ensures Decode(Encode(link, secret, address), secret, address) == link
  {
    XorTwice(Bits(link, BITS), secret, Bits(address, BITS));
    ValueBits(link, BITS);
  }

  // ---------------------------------------------------------------- size classes

  lemma DoubleProduct(x: int, y: int)
    ensures x * (2 * y) == 2 * (x * y)
  {}

  lemma {:induction false} Pow2Splits(a: nat, b: nat)
    ensures Pow2(a + b) == Pow2(a) * Pow2(b)
  {
    if b > 0 {
      Pow2Splits(a, b - 1);
      DoubleProduct(Pow2(a), Pow2(b - 1));
    }
  }

  lemma {:induction false} Pow2Grows(a: nat, b: nat)
    requires a <= b
    ensures Pow2(a) <= Pow2(b)
  {
    if a < b { Pow2Grows(a, b - 1); }
  }

  /** A Rust memory layout: a size and a power-of-two alignment. */
  datatype Layout = Layout(size: nat, alignShift: nat)

  /** The smallest shift from `k` on whose power of two is at least `n`. */
  function ShiftFor(n: nat, k: nat): (s: nat)
    requires k <= MAX_SHIFT + 1
    ensures k <= s <= MAX_SHIFT + 1
    ensures s <= MAX_SHIFT ==> Pow2(s) >= n
    ensures forall j :: k <= j < s ==> Pow2(j) < n
    decreases MAX_SHIFT + 1 - k
  { if k > MAX_SHIFT || Pow2(k) >= n then k else ShiftFor(n, k + 1) }

  function Largest(a: nat, b: nat): (m: nat) { if a < b then b else a }

  datatype Request = Request(span: nat, align: nat, cache: nat, stride: nat)

  /** The stride belongs to the cache; both are set only by MakeRequest. */
  predicate Sized(r: Request) { r.stride == Pow2(ShiftOf(r.cache)) }

  /** What a slab for the request has to look like. */
  predicate Consistent(r: Request)
  {
    r.span == Largest(r.stride, PAGE) && r.align == r.span && r.cache < DOMAINS * CLASSES
  }

  function CacheOf(domain: nat, class_: nat): (cache: nat) { domain * CLASSES + class_ }

  /** The cache a layout is served from. */
  function MakeRequest(l: Layout, domain: nat): (r: Result<Request>)
  {
    var shift := ShiftFor(Largest(l.size, Pow2(l.alignShift)), MIN_SHIFT);
    if domain >= DOMAINS || shift > MAX_SHIFT then Err(LayoutError)
    else Ok(Request(Largest(Pow2(shift), PAGE), Largest(Pow2(shift), PAGE), CacheOf(domain, shift - MIN_SHIFT),
      Pow2(shift)))
  }

  function ShiftOf(cache: nat): (k: nat)
    ensures MIN_SHIFT <= k <= MAX_SHIFT
  { cache % CLASSES + MIN_SHIFT }

  /** Whether some power of two up to 2^24 holds `n`. */
  lemma ShiftFits(n: nat)
    ensures ShiftFor(n, MIN_SHIFT) <= MAX_SHIFT <==> n <= Pow2(MAX_SHIFT)
  {
    var shift := ShiftFor(n, MIN_SHIFT);
    if shift <= MAX_SHIFT { Pow2Grows(shift, MAX_SHIFT); }
  }

  lemma Pow2Order(a: nat, b: nat)
    ensures Pow2(a) <= Pow2(b) <==> a <= b
  {
    if a <= b { Pow2Grows(a, b); } else { Pow2Grows(b + 1, a); }
  }

  /** A request is refused exactly when the domain, the size or the alignment is out of range. */
  lemma RequestRefused(l: Layout, domain: nat)
    ensures MakeRequest(l, domain).Err? <==> domain >= DOMAINS || l.size > Pow2(MAX_SHIFT) || l.alignShift > MAX_SHIFT
  {
    ShiftFits(Largest(l.size, Pow2(l.alignShift)));
    Pow2Order(l.alignShift, MAX_SHIFT);
  }

  /** Otherwise its slots are large and aligned enough, and domain and class determine the cache. */
  lemma RequestServed(l: Layout, domain: nat)
    requires MakeRequest(l, domain).Ok?
    ensures var r := MakeRequest(l, domain).value;
      && Sized(r) && Consistent(r) && r.cache / CLASSES == domain
      && l.size <= r.stride && l.alignShift <= ShiftOf(r.cache)
  {
    var n := Largest(l.size, Pow2(l.alignShift));
    var shift := ShiftFor(n, MIN_SHIFT);
    ServedShift(l, n, shift);
    CacheParts(domain, shift - MIN_SHIFT);
  }

  lemma ServedShift(l: Layout, n: nat, shift: nat)
    requires n == Largest(l.size, Pow2(l.alignShift)) && n <= Pow2(shift)
    ensures l.size <= Pow2(shift) && l.alignShift <= shift
  {
    Pow2Order(l.alignShift, shift);
  }

  lemma CacheParts(domain: nat, class_: nat)
    requires domain < DOMAINS && class_ < CLASSES
    ensures CacheOf(domain, class_) < DOMAINS * CLASSES && CacheOf(domain, class_) / CLASSES == domain
      && ShiftOf(CacheOf(domain, class_)) == class_ + MIN_SHIFT
  {
    DivMod(CacheOf(domain, class_), CLASSES, domain, class_);
  }

  // ---------------------------------------------------------------- slabs and their slots

  /** One slab: `live` holds the numbers of its allocated slots. */
  datatype Slab = Slab(base: nat, span: nat, stride: nat, cache: nat, next: nat, head: nat, free: nat, live: set<nat>)

  /** Memory by word address; words never written are zero. */
  type Memory = map<nat, Word>

  /** The word without set bits. */
  const ZERO: Word := []

  function Load(mem: Memory, a: nat): (w: Word) { if a in mem then mem[a] else ZERO }

  /** Offset of slot `s`. */
  function Off(stride: nat, s: nat): (n: nat) { if s == 0 then 0 else stride + Off(stride, s - 1) }

  lemma {:induction false} OffIs(stride: nat, s: nat)
    ensures Off(stride, s) == s * stride
  {
    if s > 0 {
      OffIs(stride, s - 1);
      assert stride + (s - 1) * stride == s * stride;
    }
  }

  lemma {:induction false} OffGap(stride: nat, s: nat, t: nat)
    requires s < t
    ensures Off(stride, s) + stride <= Off(stride, t)
  {
    if s < t - 1 { OffGap(stride, s, t - 1); }
  }

  function Addr(p: Slab, s: nat): (a: nat) { p.base + Off(p.stride, s) }

  function Count(p: Slab): (n: nat)
    requires p.stride > 0
  { p.span / p.stride }

  /** The geometry of a slab that `add` has accepted. */
  ghost predicate Shaped(p: Slab) {
    && p.stride == Pow2(ShiftOf(p.cache)) && p.cache < DOMAINS * CLASSES && p.span == Largest(p.stride, PAGE)
    && p.base > 0 && p.base % p.span == 0 && p.base + p.span < Pow2(BITS)
  }

  lemma Pow2Twelve()
    ensures Pow2(4) == 16 && Pow2(8) == 256 && Pow2(12) == PAGE
  {
    assert Pow2(4) == 16 && Pow2(8) == 256;
    Pow2Splits(4, 8);
  }

  lemma SmallSlots(k: nat)
    requires k <= 12
    ensures Pow2(k) <= PAGE && PAGE / Pow2(k) == Pow2(12 - k) && Off(Pow2(k), Pow2(12 - k)) == PAGE
  {
    Pow2Twelve();
    Pow2Grows(k, 12);
    Pow2Splits(k, 12 - k);
    DivMod(PAGE, Pow2(k), Pow2(12 - k), 0);
    OffIs(Pow2(k), Pow2(12 - k));
  }

  /** A slab is cut into whole slots, at most 256 of them. */
  lemma SlotsFill(p: Slab)
    requires Shaped(p)
    ensures 1 <= Count(p) <= 256 && Off(p.stride, Count(p)) == p.span && p.stride >= 16
  {
    var k := ShiftOf(p.cache);
    Pow2Twelve();
    Pow2Grows(4, k);
    if k <= 12 {
      SmallSlots(k);
      Pow2Grows(12 - k, 8);
    } else {
      Pow2Grows(12, k);
      DivMod(p.span, p.stride, 1, 0);
      assert Off(p.stride, 1) == p.stride + Off(p.stride, 0);
    }
  }

  /** slot: the number of the slot that begins at `pointer`. */
  function SlotOf(p: Slab, pointer: nat): (r: Result<nat>)
    requires p.stride > 0
  {
    if pointer < p.base || pointer - p.base >= p.span then Err(RangeError)
    else if (pointer - p.base) % p.stride != 0 then Err(AlignmentError)
    else Ok((pointer - p.base) / p.stride)
  }

  /** It is found exactly when the pointer is the address of a slot. */
  lemma SlotOfAddr(p: Slab, s: nat)
    requires Shaped(p) && s < Count(p)
    ensures SlotOf(p, Addr(p, s)) == Ok(s) && p.base <= Addr(p, s) && Addr(p, s) + p.stride <= p.base + p.span
  {
    SlotsFill(p);
    OffIs(p.stride, s);
    OffGap(p.stride, s, Count(p));
    DivMod(Off(p.stride, s), p.stride, s, 0);
  }

  lemma OffDiv(stride: nat, off: nat, s: nat)
    requires stride > 0 && off % stride == 0 && s == off / stride
    ensures off == Off(stride, s)
  {
    OffIs(stride, s);
    assert off == s * stride + off % stride;
  }

  lemma OffBelow(stride: nat, s: nat, n: nat)
    requires Off(stride, s) < Off(stride, n)
    ensures s < n
  {
    if n < s { OffGap(stride, n, s); }
  }

  lemma SlotOfIs(p: Slab, pointer: nat)
    requires Shaped(p) && SlotOf(p, pointer).Ok?
    ensures SlotOf(p, pointer).value < Count(p) && pointer == Addr(p, SlotOf(p, pointer).value)
  {
    var s := SlotOf(p, pointer).value;
    SlotsFill(p);
    OffDiv(p.stride, pointer - p.base, s);
    OffBelow(p.stride, s, Count(p));
  }

  // ---------------------------------------------------------------- free lists

  ghost predicate NoDup(xs: seq<nat>) { forall i, j :: 0 <= i < j < |xs| ==> xs[i] != xs[j] }

  /** Where the list goes on after its first `i` slots; 0 ends it. */
  function ListAt(p: Slab, fl: seq<nat>, i: nat): (a: nat) { if i < |fl| then Addr(p, fl[i]) else 0 }

  function WordAddr(a: nat, i: nat): (x: nat) { a + 8 * i }

  function Words(stride: nat): (n: nat)
    ensures 8 * n <= stride < 8 * n + 8
  { stride / 8 }

  /** Words `from` and up of the slot at `a` are zero. */
  ghost predicate ZeroFrom(mem: Memory, a: nat, from: nat, n: nat)
  {
    forall i :: from <= i < n ==> Load(mem, WordAddr(a, i)) == ZERO
  }

  /** Slot `i` of the list holds the encoded link to the next, and zeros. */
  ghost predicate Linked(mem: Memory, decode: Codec, p: Slab, fl: seq<nat>, i: nat)
    requires i < |fl|
  {
    decode(Load(mem, Addr(p, fl[i])), Addr(p, fl[i])) == ListAt(p, fl, i + 1)
      && ZeroFrom(mem, Addr(p, fl[i]), 1, Words(p.stride))
  }

  /** `fl` lists the slots below `n` that are not live, once each. */
  ghost predicate Covers(n: nat, live: set<nat>, fl: seq<nat>) {
    && NoDup(fl) && (forall i :: 0 <= i < |fl| ==> fl[i] < n && fl[i] !in live) && (forall s :: s in live ==> s < n)
    && (forall s :: 0 <= s < n ==> s in live || s in fl)
  }

  ghost predicate AllLinked(mem: Memory, decode: Codec, p: Slab, fl: seq<nat>)
  {
    forall i :: 0 <= i < |fl| ==> Linked(mem, decode, p, fl, i)
  }

  /** `fl` is the slab's free list: the slots that are not live, once each, linked from the head on. */
  ghost predicate FreeList(mem: Memory, decode: Codec, p: Slab, fl: seq<nat>) {
    && Shaped(p) && p.free == |fl| && p.head == ListAt(p, fl, 0)
    && Covers(Count(p), p.live, fl) && AllLinked(mem, decode, p, fl)
  }

  /** Memory agrees on [lo, hi). */
  ghost predicate SameOn(mem: Memory, mem': Memory, lo: nat, hi: nat)
  {
    forall x :: lo <= x < hi ==> Load(mem', x) == Load(mem, x)
  }

  /** Memory agrees outside [lo, hi). */
  ghost predicate OnlyOn(mem: Memory, mem': Memory, lo: nat, hi: nat)
  {
    forall x: nat :: !(lo <= x < hi) ==> Load(mem', x) == Load(mem, x)
  }

  /** Memory agrees on the slot at `a`. */
  lemma SlotSame(mem: Memory, mem': Memory, p: Slab, a: nat)
    requires p.stride >= 16 && SameOn(mem, mem', a, a + p.stride)
    ensures Load(mem', a) == Load(mem, a)
      && (ZeroFrom(mem, a, 1, Words(p.stride)) ==> ZeroFrom(mem', a, 1, Words(p.stride)))
  {
    forall i | 1 <= i < Words(p.stride) ensures Load(mem', WordAddr(a, i)) == Load(mem, WordAddr(a, i)) { }
  }

  /** The free list survives writes elsewhere. */
  lemma ListKept(mem: Memory, mem': Memory, decode: Codec, p: Slab, fl: seq<nat>)
    requires FreeList(mem, decode, p, fl) && forall i :: 0 <= i < |fl| ==>
      SameOn(mem, mem', Addr(p, fl[i]), Addr(p, fl[i]) + p.stride)
    ensures FreeList(mem', decode, p, fl)
  {
    SlotsFill(p);
    forall i | 0 <= i < |fl| ensures Linked(mem', decode, p, fl, i) {
      assert Linked(mem, decode, p, fl, i);
      SlotSame(mem, mem', p, Addr(p, fl[i]));
    }
  }

  lemma SlotsApart(p: Slab, s: nat, t: nat)
    requires s != t
    ensures Addr(p, s) + p.stride <= Addr(p, t) || Addr(p, t) + p.stride <= Addr(p, s)
  {
    if s < t { OffGap(p.stride, s, t); } else { OffGap(p.stride, t, s); }
  }

  /** Writing a word of another slot. */
  lemma WriteApart(mem: Memory, x: nat, w: Word, lo: nat, hi: nat)
    requires x < lo || x >= hi
    ensures SameOn(mem, mem[x := w], lo, hi)
  {}

  lemma CoversPop(n: nat, live: set<nat>, fl: seq<nat>)
    requires Covers(n, live, fl) && fl != []
    ensures Covers(n, live + {fl[0]}, fl[1..])
  {
    var rest := fl[1..];
    assert forall i :: 0 <= i < |rest| ==> rest[i] == fl[i + 1];
    assert fl == [fl[0]] + rest;
  }

  lemma LinkedPop(mem: Memory, decode: Codec, p: Slab, fl: seq<nat>, p': Slab, mem': Memory, i: nat)
    requires AllLinked(mem, decode, p, fl) && NoDup(fl) && i + 1 < |fl| && mem' == mem[Addr(p, fl[0]) := ZERO]
      && p.stride >= 16
    requires p'.base == p.base && p'.stride == p.stride
    ensures Linked(mem', decode, p', fl[1..], i)
  {
    var rest := fl[1..];
    assert rest[i] == fl[i + 1] && Linked(mem, decode, p, fl, i + 1);
    SlotsApart(p, fl[0], fl[i + 1]);
    WriteApart(mem, Addr(p, fl[0]), ZERO, Addr(p, fl[i + 1]), Addr(p, fl[i + 1]) + p.stride);
    SlotSame(mem, mem', p, Addr(p, fl[i + 1]));
    assert ListAt(p', rest, i + 1) == ListAt(p, fl, i + 2);
  }

  /** Taking the first slot off the list and clearing its link leaves the rest, and a slot of zeros. */
  lemma Pop(mem: Memory, decode: Codec, p: Slab, fl: seq<nat>, p': Slab, mem': Memory)
    requires FreeList(mem, decode, p, fl) && fl != [] && mem' == mem[p.head := ZERO]
    requires p' == p.(head := ListAt(p, fl, 1), free := p.free - 1, live := p.live + {fl[0]})
    ensures FreeList(mem', decode, p', fl[1..]) && ZeroFrom(mem', p.head, 0, Words(p.stride))
  {
    SlotsFill(p);
    CoversPop(Count(p), p.live, fl);
    assert Linked(mem, decode, p, fl, 0);
    forall i | 0 <= i < |fl| - 1
      ensures Linked(mem', decode, p', fl[1..], i)
    {
      LinkedPop(mem, decode, p, fl, p', mem', i);
    }
    assert ListAt(p', fl[1..], 0) == ListAt(p, fl, 1);
  }

  lemma CoversPush(n: nat, live: set<nat>, fl: seq<nat>, s: nat)
    requires Covers(n, live, fl) && s in live
    ensures Covers(n, live - {s}, [s] + fl)
  {
    var more := [s] + fl;
    assert forall i :: 1 <= i < |more| ==> more[i] == fl[i - 1];
  }

  lemma LinkedPush(mem: Memory, decode: Codec, p: Slab, fl: seq<nat>, p': Slab, mem': Memory, s: nat, i: nat)
    requires AllLinked(mem, decode, p, fl) && i < |fl| && s != fl[i] && p.stride >= 16 && p'.base == p.base
      && p'.stride == p.stride
    requires OnlyOn(mem, mem', Addr(p, s), Addr(p, s) + p.stride)
    ensures Linked(mem', decode, p', [s] + fl, i + 1)
  {
    assert Linked(mem, decode, p, fl, i) && ([s] + fl)[i + 1] == fl[i];
    SlotsApart(p, s, fl[i]);
    SlotSame(mem, mem', p, Addr(p, fl[i]));
    assert ListAt(p', [s] + fl, i + 2) == ListAt(p, fl, i + 1);
  }

  /** Erasing a live slot and putting it first on the list. */
  lemma Push(mem: Memory, decode: Codec, p: Slab, fl: seq<nat>, p': Slab, mem': Memory, s: nat)
    requires FreeList(mem, decode, p, fl) && s in p.live
      && p' == p.(head := Addr(p, s), free := p.free + 1, live := p.live - {s})
    requires OnlyOn(mem, mem', Addr(p, s), Addr(p, s) + p.stride)
    requires ZeroFrom(mem', Addr(p, s), 1, Words(p.stride)) && decode(Load(mem', Addr(p, s)), Addr(p, s)) == p.head
    ensures FreeList(mem', decode, p', [s] + fl)
  {
    SlotsFill(p);
    CoversPush(Count(p), p.live, fl, s);
    assert ListAt(p', [s] + fl, 1) == ListAt(p, fl, 0);
    forall i | 0 <= i < |fl| + 1 ensures Linked(mem', decode, p', [s] + fl, i) {
      if i > 0 { LinkedPush(mem, decode, p, fl, p', mem', s, i - 1); }
    }
  }

  lemma HeadFits(p: Slab, fl: seq<nat>)
    requires Shaped(p) && (forall i :: 0 <= i < |fl| ==> fl[i] < Count(p))
    ensures ListAt(p, fl, 0) < Pow2(BITS)
  {
    if fl != [] { SlotOfAddr(p, fl[0]); }
  }

  // ---------------------------------------------------------------- all slabs

  /** One past the last slab of cache `c`, or 0. */
  function Last(pages: seq<Slab>, c: nat): (k: nat)
    ensures k <= |pages| && (k > 0 ==> pages[k - 1].cache == c) && forall j :: k <= j < |pages| ==> pages[j].cache != c
  {
    if pages == [] then 0 else if pages[|pages| - 1].cache == c then |pages| else Last(pages[..|pages| - 1], c)
  }

  lemma LastIs(pages: seq<Slab>, c: nat, k: nat)
    requires k <= |pages| && (k > 0 ==> pages[k - 1].cache == c) && forall j :: k <= j < |pages| ==> pages[j].cache != c
    ensures Last(pages, c) == k
  {}

  ghost predicate HeadIs(pages: seq<Slab>, lists: seq<nat>, c: nat)
    requires c < |lists|
  { lists[c] == Last(pages, c) }

  ghost predicate NextIs(pages: seq<Slab>, i: nat)
    requires i < |pages|
  { pages[i].next == Last(pages[..i], pages[i].cache) }

  /** The cache lists: each head is its last slab, each slab leads to the one before it in its cache. */
  ghost predicate Listed(pages: seq<Slab>, lists: seq<nat>) {
    |lists| == DOMAINS * CLASSES && (forall c :: 0 <= c < |lists| ==> HeadIs(pages, lists, c))
      && (forall i :: 0 <= i < |pages| ==> NextIs(pages, i))
  }

  ghost predicate Below(pages: seq<Slab>, i: nat, j: nat)
    requires i < |pages| && j < |pages|
  { pages[i].base + pages[i].span <= pages[j].base }

  /** Slabs lie one after the other in memory. */
  ghost predicate Ordered(pages: seq<Slab>) { forall i, j :: 0 <= i < j < |pages| ==> Below(pages, i, j) }

  ghost predicate Intact(mem: Memory, decode: Codec, pages: seq<Slab>, fls: seq<seq<nat>>, i: nat)
    requires i < |pages| == |fls|
  { FreeList(mem, decode, pages[i], fls[i]) }

  ghost predicate AllLists(mem: Memory, decode: Codec, pages: seq<Slab>, fls: seq<seq<nat>>) {
    |fls| == |pages| && forall i :: 0 <= i < |pages| ==> Intact(mem, decode, pages, fls, i)
  }

  function LiveCount(pages: seq<Slab>): (n: nat)
  {
    if pages == [] then 0 else LiveCount(pages[..|pages| - 1]) + |pages[|pages| - 1].live|
  }

  function LiveBytes(pages: seq<Slab>): (n: nat) {
    if pages == [] then 0 else LiveBytes(pages[..|pages| - 1]) + |pages[|pages| - 1].live| * pages[|pages| - 1].stride
  }

  function Reserved(pages: seq<Slab>): (n: nat)
  {
    if pages == [] then 0 else Reserved(pages[..|pages| - 1]) + pages[|pages| - 1].span
  }

  ghost predicate HeapOk(mem: Memory, decode: Codec, pages: seq<Slab>, lists: seq<nat>, fls: seq<seq<nat>>) {
    Ordered(pages) && Listed(pages, lists) && AllLists(mem, decode, pages, fls)
  }

  /** Writes inside slab `i` leave the free lists of the others. */
  lemma OthersKept(mem: Memory, mem': Memory, decode: Codec, pages: seq<Slab>, fls: seq<seq<nat>>, i: nat, j: nat)
    requires Ordered(pages) && AllLists(mem, decode, pages, fls) && i < |pages| && j < |pages| && i != j
    requires OnlyOn(mem, mem', pages[i].base, pages[i].base + pages[i].span)
    ensures FreeList(mem', decode, pages[j], fls[j])
  {
    var p, fl := pages[j], fls[j];
    assert Intact(mem, decode, pages, fls, j);
    assert if i < j then Below(pages, i, j) else Below(pages, j, i);
    forall k | 0 <= k < |fl|
      ensures SameOn(mem, mem', Addr(p, fl[k]), Addr(p, fl[k]) + p.stride)
    {
      SlotOfAddr(p, fl[k]);
    }
    ListKept(mem, mem', decode, p, fl);
  }

  lemma LastSame(pages: seq<Slab>, pages': seq<Slab>, c: nat)
    requires |pages| == |pages'| && forall j :: 0 <= j < |pages| ==> pages'[j].cache == pages[j].cache
    ensures Last(pages', c) == Last(pages, c)
  {
    LastIs(pages', c, Last(pages, c));
  }

  lemma NextSame(pages: seq<Slab>, i: nat, p': Slab, j: nat)
    requires i < |pages| && j <= |pages| && p'.cache == pages[i].cache
    ensures forall c :: Last(pages[i := p'][..j], c) == Last(pages[..j], c)
  {
    forall c
      ensures Last(pages[i := p'][..j], c) == Last(pages[..j], c)
    {
      LastSame(pages[..j], pages[i := p'][..j], c);
    }
  }

  lemma ListedKept(pages: seq<Slab>, lists: seq<nat>, i: nat, p': Slab)
    requires Listed(pages, lists) && i < |pages| && p'.cache == pages[i].cache && p'.next == pages[i].next
    ensures Listed(pages[i := p'], lists)
  {
    var pages' := pages[i := p'];
    forall c | 0 <= c < |lists| ensures HeadIs(pages', lists, c) {
      assert HeadIs(pages, lists, c);
      LastSame(pages, pages', c);
    }
    forall j | 0 <= j < |pages'| ensures NextIs(pages', j) {
      assert NextIs(pages, j);
      NextSame(pages, i, p', j);
    }
  }

  lemma OrderedKept(pages: seq<Slab>, i: nat, p': Slab)
    requires Ordered(pages) && i < |pages| && p'.base == pages[i].base && p'.span == pages[i].span
    ensures Ordered(pages[i := p'])
  {
    var pages' := pages[i := p'];
    forall j, k | 0 <= j < k < |pages'| ensures Below(pages', j, k) { assert Below(pages, j, k); }
  }

  /** One slab and its memory changed. */
  lemma HeapStep(mem: Memory, mem': Memory, decode: Codec, pages: seq<Slab>, lists: seq<nat>, fls: seq<seq<nat>>,
      i: nat, p': Slab, fl': seq<nat>)
    requires HeapOk(mem, decode, pages, lists, fls) && i < |pages|
      && OnlyOn(mem, mem', pages[i].base, pages[i].base + pages[i].span)
    requires p'.base == pages[i].base && p'.span == pages[i].span && p'.cache == pages[i].cache
      && p'.next == pages[i].next && FreeList(mem', decode, p', fl')
    ensures HeapOk(mem', decode, pages[i := p'], lists, fls[i := fl'])
  {
    ListedKept(pages, lists, i, p');
    OrderedKept(pages, i, p');
    var pages', fls' := pages[i := p'], fls[i := fl'];
    forall j | 0 <= j < |pages'| ensures Intact(mem', decode, pages', fls', j) {
      if j != i { OthersKept(mem, mem', decode, pages, fls, i, j); }
    }
  }

  lemma {:induction false} CountsStep(pages: seq<Slab>, i: nat, p': Slab)
    requires i < |pages| && p'.stride == pages[i].stride && p'.span == pages[i].span
    ensures LiveCount(pages[i := p']) + |pages[i].live| == LiveCount(pages) + |p'.live|
      && Reserved(pages[i := p']) == Reserved(pages)
    ensures LiveBytes(pages[i := p']) + |pages[i].live| * p'.stride == LiveBytes(pages) + |p'.live| * p'.stride
    decreases |pages|
  {
    var n := |pages| - 1;
    if i < n {
      CountsStep(pages[..n], i, p');
      assert pages[i := p'][..n] == pages[..n][i := p'];
    } else {
      assert pages[i := p'][..n] == pages[..n];
    }
  }
}

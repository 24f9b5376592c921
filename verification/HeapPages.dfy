/**
  The heap's backing pages (src/arch/amd64/memory.rs:41-92, src/arch/amd64/page_table.rs:135-208,
  src/memory/slab.rs:13-19): which page tables exist and how many frames are free.
 */
module HeapPages {
  import opened Base
  import opened PageTables
  import opened AddressSpaces

  const PAGE: nat := 4096
  const CHUNK: nat := 0x20_0000
  const AMD_HEAP_BASE: nat := 0xffff_c000_0000_0000
  const HEAP_LIMIT: nat := 0xffff_c400_0000_0000
  const HEAP_VA_BUDGET: nat := 0x20_0020_0000
  const HEAP_PLACEMENTS: nat := 0x1f_0000
  const INITIAL: nat := 0x40_0000
  const WORD: nat := 0x1_0000_0000_0000_0000

  /** backing_frames: the pages, and every table that could be missing at each level. */
  function BackingFrames(start: nat, bytes: nat): (r: Option<nat>) {
    if bytes == 0 || start % PAGE != 0 || bytes % PAGE != 0 || start + bytes >= WORD then None
    else var last := start + bytes - 1;
      Some(bytes / PAGE
           + (last / 0x80_0000_0000 - start / 0x80_0000_0000 + 1)
           + (last / 0x4000_0000 - start / 0x4000_0000 + 1)
           + (last / 0x20_0000 - start / 0x20_0000 + 1))
  }

  lemma PreShift(a: nat)
    ensures a / 0x20_0000 == Pre(a / PAGE, 1) && a / 0x4000_0000 == Pre(a / PAGE, 2)
      && a / 0x80_0000_0000 == Pre(a / PAGE, 3)
  {
    assert Pre(a / PAGE, 1) == a / PAGE / 512 && Pre(a / PAGE, 2) == Pre(a / PAGE, 1) / 512
      && Pre(a / PAGE, 3) == Pre(a / PAGE, 2) / 512;
  }

  lemma {:induction false} PreNext(v: nat, level: nat)
    ensures Pre(v, level) <= Pre(v + 1, level) <= Pre(v, level) + 1
  {
    if level > 0 { PreNext(v, level - 1); }
  }

  /** Tables at `level` met by the first `k` pages from `v`. */
  ghost function Met(v: nat, k: nat, level: nat): (n: int)
  {
    if k == 0 then 0 else Pre(v + k - 1, level) - Pre(v, level) + 1
  }

  /** Frames that suffice for `n` pages from `v`. */
  ghost function Enough(v: nat, n: nat): (m: int) { n + Met(v, n, 3) + Met(v, n, 2) + Met(v, n, 1) }

  lemma BackingIs(start: nat, bytes: nat)
    requires BackingFrames(start, bytes).Some?
    ensures BackingFrames(start, bytes).value == Enough(start / PAGE, bytes / PAGE)
  {
    var last := start + bytes - 1;
    PreShift(start);
    PreShift(last);
    assert last / PAGE == start / PAGE + bytes / PAGE - 1;
  }

  lemma {:induction false} EnoughGrows(v: nat, k: nat, n: nat)
    requires k <= n
    ensures Enough(v, k) <= Enough(v, n) && (k < n ==> Enough(v, k + 1) <= Enough(v, n))
    decreases n - k
  {
    if k < n {
      EnoughGrows(v, k + 1, n);
      if k > 0 {
        MetGrows(v, k, 1);
        MetGrows(v, k, 2);
        MetGrows(v, k, 3);
      }
    }
  }

  lemma MetGrows(v: nat, k: nat, level: nat)
    requires k > 0
    ensures Met(v, k, level) <= Met(v, k + 1, level)
  {
    PreNext(v + k - 1, level);
  }

  /** `n` page numbers from `first`. */
  ghost function Pages(first: nat, n: nat): (s: set<nat>)
    ensures forall v :: v in s <==> first <= v < first + n
    decreases n
  { if n == 0 then {} else Pages(first, n - 1) + {first + n - 1} }

  datatype MapError = NoFrame | Taken

  /** The kernel's tables over the heap, and the frames left. */
  class Backing {
    var free: nat
    var tables: set<Key>
    var pages: set<nat>

    constructor (free: nat, tables: set<Key>)
      ensures this.free == free && this.tables == tables && pages == {}
    {
      this.free, this.tables, pages := free, tables, {};
    }

    /** map_page: makes the missing tables on the way, then the entry. */
    method MapPage(v: nat) returns (r: Option<MapError>)
      modifies this
      ensures r.None? ==>
        pages == old(pages) + {v} && v !in old(pages) && tables == old(tables) + {KeyOf(v, 1), KeyOf(v, 2), KeyOf(v, 3)}
      ensures r.None? ==> free == old(free) - Absent(old(tables), v, 3)
      ensures r.None? <==> old(free) >= Absent(old(tables), v, 3) && v !in old(pages)
      ensures r.Some? ==> (r.value == NoFrame <==> old(free) < Absent(old(tables), v, 3))
      ensures r.Some? ==> pages == old(pages)
    {
      var level := 3;
      while level > 0
        invariant level <= 3 && pages == old(pages) && old(tables) <= tables
          && free - Absent(tables, v, level) == old(free) - Absent(old(tables), v, 3)
        invariant tables == old(tables) + (if level < 3 then {KeyOf(v, 3)} else {}) + (if level < 2 then {KeyOf(v, 2)}
          else {}) + (if level < 1 then {KeyOf(v, 1)} else {})
      {
        if KeyOf(v, level) !in tables {
          if free == 0 { return Some(NoFrame); }
          AbsentBelow(tables, v, level - 1, KeyOf(v, level));
          free, tables := free - 1, tables + {KeyOf(v, level)};
        }
        level := level - 1;
      }
      if v in pages { return Some(Taken); }
      pages := pages + {v};
      r := None;
    }

    /** map_heap_pages: with enough frames for the pages and all tables in reach, no step can fail. */
    method MapHeapPages(first: nat, n: nat) returns (ok: bool)
      requires free >= Enough(first, n) && forall v :: first <= v < first + n ==> v !in pages
      modifies this
      ensures ok && pages == old(pages) + Pages(first, n) && free >= old(free) - Enough(first, n)
        && old(tables) <= tables
    {
      for k := 0 to n
        invariant pages == old(pages) + Pages(first, k) && free >= old(free) - Enough(first, k) && old(tables) <= tables
        invariant k > 0 ==> Reached(tables, first + k - 1)
      {
        EnoughGrows(first, k, n);
        AbsentAtMost(tables, first, k);
        if free == 0 { return false; }
        free := free - 1;
        var r := MapPage(first + k);
        if r.Some? { return false; }
        assert Pages(first, k) + {first + k} == Pages(first, k + 1);
      }
      ok := true;
    }

    /** heap_extend: all of the growth, or none of it. */
    method HeapExtend(end: nat, needed: nat) returns (r: Option<nat>)
      requires end % PAGE == 0 && needed > 0 && forall v :: end / PAGE <= v ==> v !in pages
      modifies this
      ensures r.None? ==> free == old(free) && tables == old(tables) && pages == old(pages)
      ensures r.Some? <==>
        end + Grown(needed) < WORD && end + Grown(needed) <= HEAP_LIMIT
        && old(free) >= BackingFrames(end, Grown(needed)).value
      ensures r.Some? ==> r.value == Grown(needed) && pages == old(pages) + Pages(end / PAGE, r.value / PAGE)
    {
      var grow := (needed + CHUNK - 1) / CHUNK * CHUNK;
      if end + grow >= WORD || end + grow > HEAP_LIMIT { return None; }
      var frames := BackingFrames(end, grow);
      if frames.None? || free < frames.value { return None; }
      BackingIs(end, grow);
      var ok := MapHeapPages(end / PAGE, grow / PAGE);
      r := Some(grow);
    }
  }

  function Grown(needed: nat): (g: nat)
    ensures needed > 0 ==> needed <= g < needed + CHUNK && g % CHUNK == 0 && g > 0
  { (needed + CHUNK - 1) / CHUNK * CHUNK }

  /** The tables on the way to page `v` are there. */
  predicate Reached(tables: set<Key>, v: nat)
  {
    KeyOf(v, 1) in tables && KeyOf(v, 2) in tables && KeyOf(v, 3) in tables
  }

  /** Tables missing on the way to page `v`, at `level` and below. */
  function Absent(tables: set<Key>, v: nat, level: nat): (n: nat) {
    if level == 0 then 0 else Absent(tables, v, level - 1) + if KeyOf(v, level) in tables then 0 else 1
  }

  lemma {:induction false} AbsentBelow(tables: set<Key>, v: nat, level: nat, k: Key)
    requires k.level > level
    ensures Absent(tables + {k}, v, level) == Absent(tables, v, level)
  {
    if level > 0 { AbsentBelow(tables, v, level - 1, k); }
  }

  /** The next page meets at most as many new tables as the count allows. */
  lemma AbsentAtMost(tables: set<Key>, first: nat, k: nat)
    requires k > 0 ==> Reached(tables, first + k - 1)
    ensures 1 + Absent(tables, first + k, 3) <= Enough(first, k + 1) - Enough(first, k)
  {
    AbsentAt(tables, first, k, 1);
    AbsentAt(tables, first, k, 2);
    AbsentAt(tables, first, k, 3);
    assert Absent(tables, first + k, 0) == 0;
  }

  lemma AbsentAt(tables: set<Key>, first: nat, k: nat, level: nat)
    requires level > 0 && (k > 0 ==> KeyOf(first + k - 1, level) in tables)
    ensures Absent(tables, first + k, level) - Absent(tables, first + k, level - 1) <= Met(first, k + 1,
      level) - Met(first, k, level)
  {
    if k > 0 { PreNext(first + k - 1, level); }
  }
}

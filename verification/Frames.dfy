/**
  Physical memory and its 4 KiB frame allocator (src/memory/frame_allocator.rs).
  A frame is looked at as a page table or as bytes; a scrubbed frame is either.
 */
module Frames {
  import opened Base

  const FRAME_SIZE: nat := 4096
  const ENTRIES: nat := 512

  /** A page-table entry; `frame` is the number of the frame it points to. */
  datatype Entry = Absent | Entry(frame: nat, writable: bool, user: bool, noExec: bool, huge: bool)

  datatype Frame = Zero | Table(entries: seq<Entry>) | Data(bytes: seq<byte>)

  ghost predicate WellSized(f: Frame) { (f.Table? ==> |f.entries| == ENTRIES) && (f.Data? ==> |f.bytes| == FRAME_SIZE) }

  ghost predicate FreeIs(used: seq<bool>, free: set<nat>, i: nat)
    requires i < |used|
  { i in free <==> !used[i] }

  ghost predicate ScrubbedIs(used: seq<bool>, zeroed: seq<bool>, mem: seq<Frame>, i: nat)
    requires i < |used| == |zeroed| == |mem|
  { !used[i] && zeroed[i] ==> mem[i] == Zero }

  /** The bitmap, the count and the scrubbed marks agree with the set of free frames. */
  ghost predicate Tracks(used: seq<bool>, zeroed: seq<bool>, mem: seq<Frame>, free: set<nat>) {
    && |used| == |zeroed| == |mem| && (forall i :: i in free ==> 0 <= i < |used|)
    && (forall i :: 0 <= i < |used| ==> FreeIs(used, free, i))
    && (forall i :: 0 <= i < |used| ==> ScrubbedIs(used, zeroed, mem, i))
    && (forall i :: 0 <= i < |mem| ==> WellSized(mem[i]))
  }

  lemma TracksTaken(used: seq<bool>, zeroed: seq<bool>, mem: seq<Frame>, free: set<nat>, i: nat)
    requires Tracks(used, zeroed, mem, free) && i in free
    ensures i < |used| && Tracks(used[i := true], zeroed[i := false], mem[i := Zero], free - {i})
      && |free - {i}| == |free| - 1
  {
    var used', zeroed', mem', free' := used[i := true], zeroed[i := false], mem[i := Zero], free - {i};
    forall j | 0 <= j < |used| ensures FreeIs(used', free', j) && ScrubbedIs(used', zeroed', mem', j) {
      assert FreeIs(used, free, j) && ScrubbedIs(used, zeroed, mem, j);
    }
  }

  lemma TracksGiven(used: seq<bool>, zeroed: seq<bool>, mem: seq<Frame>, free: set<nat>, i: nat)
    requires Tracks(used, zeroed, mem, free) && i < |used| && used[i]
    ensures i !in free && Tracks(used[i := false], zeroed[i := true], mem[i := Zero], free + {i})
      && |free + {i}| == |free| + 1
  {
    assert FreeIs(used, free, i);
    var used', zeroed', mem', free' := used[i := false], zeroed[i := true], mem[i := Zero], free + {i};
    forall j | 0 <= j < |used| ensures FreeIs(used', free', j) && ScrubbedIs(used', zeroed', mem', j) {
      assert FreeIs(used, free, j) && ScrubbedIs(used, zeroed, mem, j);
    }
  }

  /** The scan's i-th index, from a starting point that may be one past the end. */
  lemma Around(start: nat, i: nat, n: nat)
    requires start <= n && i < n
    ensures (start + i) % n == if start + i < n then start + i else start + i - n
  {
    DivMod(start + i, n, if start + i < n then 0 else 1, if start + i < n then start + i else start + i - n);
  }

  /** Frame `f` is among the first `i` the scan from `start` looks at. */
  predicate Scanned(start: nat, i: nat, n: nat, f: nat) { start <= f < start + i || f + n < start + i }

  class FrameAllocator {
    const used: array<bool>
    const zeroed: array<bool>
    const total: nat
    var freeFrames: nat
    var lastSearch: nat
    var mem: seq<Frame>
    ghost var free: set<nat>

    ghost predicate Valid()
      reads this, used, zeroed
    {
      && used != zeroed && used.Length == total && lastSearch <= total && freeFrames == |free|
      && Tracks(used[..], zeroed[..], mem, free)
    }

    /** init: a frame is free when it is usable RAM that nothing reserves; none is known to be scrubbed. */
    constructor (usable: seq<bool>, contents: seq<Frame>)
      requires |usable| == |contents| && forall i :: 0 <= i < |contents| ==> WellSized(contents[i])
      ensures Valid() && fresh(used) && fresh(zeroed) && mem == contents && total == |usable|
      ensures forall i: nat :: i in free <==> i < |usable| && usable[i]
    {
      used := new bool[|usable|](i requires 0 <= i < |usable| => !usable[i]);
      zeroed := new bool[|usable|](_ => false);
      total, lastSearch, mem := |usable|, 0, contents;
      free := set i | 0 <= i < |usable| && usable[i];
      var count := 0;
      ghost var seen: set<nat> := {};
      for i := 0 to |usable|
        invariant count == |seen| && seen == set j | 0 <= j < i && usable[j]
      {
        ghost var next := if usable[i] then seen + {i} else seen;
        assert next == set j | 0 <= j < i + 1 && usable[j];
        if usable[i] { count := count + 1; }
        seen := next;
      }
      freeFrames := count;
      new;
      forall i | 0 <= i < total ensures FreeIs(used[..], free, i) && ScrubbedIs(used[..], zeroed[..], mem, i) { }
    }

    /** Writes a frame that is in use. */
    method Write(i: nat, d: Frame)
      requires Valid() && i < total && i !in free && WellSized(d)
      modifies this`mem
      ensures Valid() && mem == old(mem)[i := d]
    {
      ghost var was := mem;
      mem := mem[i := d];
      forall j | 0 <= j < total ensures ScrubbedIs(used[..], zeroed[..], mem, j) {
        assert ScrubbedIs(used[..], zeroed[..], was, j) && FreeIs(used[..], free, i);
      }
    }

    /** Takes a frame; one never scrubbed since it was last used is scrubbed now. */
    method Mark(i: nat)
      requires Valid() && i in free
      modifies this`freeFrames, this`mem, this`free, used, zeroed
      ensures Valid() && free == old(free) - {i} && i < |old(mem)| && mem == old(mem)[i := Zero]
    {
      ghost var u, z := used[..], zeroed[..];
      TracksTaken(u, z, mem, free, i);
      assert ScrubbedIs(u, z, mem, i) && FreeIs(u, free, i);
      if !zeroed[i] { mem := mem[i := Zero]; }
      zeroed[i] := false;
      used[i] := true;
      assert used[..] == u[i := true] && zeroed[..] == z[i := false] && mem == old(mem)[i := Zero];
      free, freeFrames := free - {i}, freeFrames - 1;
    }

    /** Fails only when nothing is free; the frame it returns was free and reads as zero. */
    method AllocateZeroed() returns (r: Option<nat>)
      requires Valid()
      modifies this, used, zeroed
      ensures Valid() && (r.Some? <==> old(free) != {})
      ensures r.None? ==> free == old(free) && mem == old(mem)
      ensures r.Some? ==>
        r.value in old(free) && r.value < |mem| && free == old(free) - {r.value} && mem == old(mem)[r.value := Zero]
    {
      var start := lastSearch;
      for i := 0 to total
        invariant Valid() && free == old(free) && mem == old(mem) && start == lastSearch
        invariant forall f :: f in free ==> !Scanned(start, i, total, f)
      {
        Around(start, i, total);
        var f := (start + i) % total;
        assert FreeIs(used[..], free, f);
        if !used[f] {
          Mark(f);
          lastSearch := f + 1;
          return Some(f);
        }
        assert forall g: nat :: Scanned(start, i + 1, total, g) && g < total && g != f ==> Scanned(start, i, total, g);
      }
      assert forall f :: f in free ==> Scanned(start, total, total, f);
      r := None;
    }

    /** Scrubs a frame before it is free again; releasing a free frame changes nothing. */
    method Deallocate(i: nat)
      requires Valid() && i < total
      modifies this`freeFrames, this`mem, this`free, used, zeroed
      ensures Valid() && free == old(free) + {i}
      ensures mem == if i in old(free) then old(mem) else old(mem)[i := Zero]
    {
      ghost var u, z := used[..], zeroed[..];
      assert FreeIs(u, free, i);
      if used[i] {
        TracksGiven(u, z, mem, free, i);
        mem := mem[i := Zero];
        zeroed[i] := true;
        used[i] := false;
        assert used[..] == u[i := false] && zeroed[..] == z[i := true];
        free, freeFrames := free + {i}, freeFrames + 1;
      } else {
        assert free == free + {i};
      }
    }
  }
}

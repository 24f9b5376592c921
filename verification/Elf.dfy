/**
  The ELF validator (src/memory/elf.rs). Numbers read from the file are 64-bit:
  every sum below is shown to fit, and every read to lie inside the file.
 */
module Elf {
  import opened Base

  const PAGE: u64 := 4096
  const MAX_IMAGE: u64 := 0x400_0000
  const MAX_RELOCS: u64 := 4096
  const MAX_SEGMENTS: nat := 16
  const U64: int := 0x1_0000_0000_0000_0000

  newtype u64 = x: int | 0 <= x < 0x1_0000_0000_0000_0000

  const PT_LOAD: u64 := 1
  const PT_DYNAMIC: u64 := 2
  const PT_INTERP: u64 := 3
  const GNU_STACK: u64 := 0x6474e551
  const GNU_RELRO: u64 := 0x6474e552

  datatype Ph = Ph(kind: u64, flags: u64, offset: u64, vaddr: u64, filesz: u64, memsz: u64, align: u64)

  datatype Segment = Segment(vaddr: u64, memsz: u64, offset: u64, filesz: u64, writable: bool, executable: bool)

  datatype Region = Region(start: u64, end: u64)

  datatype Image = Image(entry: u64, pie: bool, alignment: u64, segments: seq<Segment>, relro: Option<Region>,
    relocFile: nat, relocCount: nat)

  // ---------------------------------------------------------------- reading the file

  function Rd16(b: seq<byte>, o: nat): (r: u64)
    requires o + 2 <= |b|
    ensures r < 0x1_0000
  { (b[o] as int + 0x100 * b[o + 1] as int) as u64 }

  function Rd32(b: seq<byte>, o: nat): (r: u64)
    requires o + 4 <= |b|
    ensures r < 0x1_0000_0000
  { Rd16(b, o) + 0x1_0000 * Rd16(b, o + 2) }

  function Rd64(b: seq<byte>, o: nat): (r: u64)
    requires o + 8 <= |b|
  { Rd32(b, o) + 0x1_0000_0000 * Rd32(b, o + 4) }

  function PhAt(b: seq<byte>, at: nat): (p: Ph)
    requires at + 56 <= |b|
  {
    Ph(Rd32(b, at), Rd32(b, at + 4), Rd64(b, at + 8), Rd64(b, at + 16), Rd64(b, at + 32), Rd64(b, at + 40),
      Rd64(b, at + 48))
  }

  /** Where program header `i` is. */
  function HeadAt(phoff: nat, size: nat, i: nat): (at: nat)
  {
    if i == 0 then phoff else HeadAt(phoff, size, i - 1) + size
  }

  lemma {:induction false} HeadAtIs(phoff: nat, size: nat, i: nat)
    ensures HeadAt(phoff, size, i) == phoff + i * size
  {
    if i > 0 { HeadAtIs(phoff, size, i - 1); }
  }

  /** The first `n` program headers. */
  function Headers(b: seq<byte>, phoff: nat, size: nat, n: nat): (phs: seq<Ph>)
    requires size >= 56 && HeadAt(phoff, size, n) <= |b|
    ensures |phs| == n
  { if n == 0 then [] else Headers(b, phoff, size, n - 1) + [PhAt(b, HeadAt(phoff, size, n - 1))] }

  lemma {:induction false} HeadersAt(b: seq<byte>, phoff: nat, size: nat, n: nat, i: nat)
    requires size >= 56 && HeadAt(phoff, size, n) <= |b| && i < n
    ensures HeadAt(phoff, size, i) + 56 <= |b| && Headers(b, phoff, size, n)[i] == PhAt(b, HeadAt(phoff, size, i))
  {
    if i < n - 1 { HeadersAt(b, phoff, size, n - 1, i); }
  }

  // ---------------------------------------------------------------- what a header may say

  predicate PowerOfTwo(n: nat) { n == 1 || (n > 1 && n % 2 == 0 && PowerOfTwo(n / 2)) }

  predicate Congruent(a: nat, b: nat, n: nat) { n > 0 && a % n == b % n }

  function End(p: Ph): (e: int) { p.vaddr as int + p.memsz as int }

  predicate IsLoad(p: Ph) { p.kind == PT_LOAD && p.memsz != 0 }

  predicate LoadOk(p: Ph, pie: bool, len: nat, base: u64, limit: u64) {
    && (p.align > 1 ==> PowerOfTwo(p.align as nat) && Congruent(p.vaddr as nat, p.offset as nat, p.align as nat))
    && (pie ==> p.align <= 65536) && p.flags < 8 && p.flags / 4 % 2 == 1 && p.flags % 4 != 3
    && p.filesz <= p.memsz && p.offset as int + p.filesz as int <= len
    && (if pie then End(p) <= MAX_IMAGE as int else base <= p.vaddr && End(p) <= limit as int) && End(p) + 4095 < U64
  }

  predicate PhOk(p: Ph, pie: bool, len: nat, base: u64, limit: u64) {
    && End(p) < U64 && p.kind != PT_INTERP && !(p.kind == GNU_STACK && p.flags % 2 == 1)
    && (p.kind == PT_DYNAMIC ==> pie && 0 < p.filesz <= p.memsz && p.filesz % 16 == 0 && p.filesz <= 4096)
    && (p.kind == GNU_RELRO && p.memsz != 0 ==> p.vaddr % PAGE == 0 && End(p) % 4096 == 0)
    && (IsLoad(p) ==> LoadOk(p, pie, len, base, limit))
  }

  function SegmentOf(p: Ph): (s: Segment)
  {
    Segment(p.vaddr, p.memsz, p.offset, p.filesz, p.flags / 2 % 2 == 1, p.flags % 2 == 1)
  }

  /** The loadable segments, in file order. */
  function Loads(phs: seq<Ph>): (segs: seq<Segment>) {
    if phs == [] then [] else var n := |phs| - 1; Loads(phs[..n]) + if IsLoad(phs[n]) then [SegmentOf(phs[n])] else []
  }

  function Dynamics(phs: seq<Ph>): (ds: seq<Ph>) {
    if phs == [] then [] else var n := |phs| - 1;
      Dynamics(phs[..n]) + if phs[n].kind == PT_DYNAMIC then [phs[n]] else []
  }

  function Relros(phs: seq<Ph>): (rs: seq<Ph>) {
    if phs == [] then [] else var n := |phs| - 1;
      Relros(phs[..n]) + if phs[n].kind == GNU_RELRO && phs[n].memsz != 0 then [phs[n]] else []
  }

  function Total(segs: seq<Segment>): (n: nat)
  {
    if segs == [] then 0 else Total(segs[..|segs| - 1]) + segs[|segs| - 1].memsz as nat
  }

  /** The largest alignment asked for, at least a page. */
  function Alignment(phs: seq<Ph>): (a: u64)
    ensures a >= PAGE
  {
    if phs == [] then PAGE else var n, a := |phs| - 1, Alignment(phs[..|phs| - 1]);
    if IsLoad(phs[n]) && phs[n].align > a then phs[n].align else a
  }

  function FirstPage(s: Segment): (p: int) { s.vaddr as int / 4096 }

  function LastPage(s: Segment): (p: int) { (s.vaddr as int + s.memsz as int + 4095) / 4096 }

  predicate Apart(s: Segment, t: Segment) { LastPage(s) <= FirstPage(t) || LastPage(t) <= FirstPage(s) }

  ghost predicate ApartAt(segs: seq<Segment>, i: nat, j: nat) { i < j < |segs| ==> Apart(segs[i], segs[j]) }

  ghost predicate AllApart(segs: seq<Segment>) { forall i: nat, j: nat :: ApartAt(segs, i, j) }

  /** The program headers can be loaded. */
  ghost predicate Loadable(phs: seq<Ph>, pie: bool, len: nat, base: u64, limit: u64) {
    && (forall i :: 0 <= i < |phs| ==> PhOk(phs[i], pie, len, base, limit))
    && |Dynamics(phs)| <= 1 && |Relros(phs)| <= 1 && |Loads(phs)| <= MAX_SEGMENTS
    && Total(Loads(phs)) <= MAX_IMAGE as nat && AllApart(Loads(phs))
  }

  lemma {:induction false} LoadablePrefix(phs: seq<Ph>, i: nat, pie: bool, len: nat, base: u64, limit: u64)
    requires Loadable(phs, pie, len, base, limit) && i <= |phs|
    ensures Loadable(phs[..i], pie, len, base, limit)
    decreases |phs|
  {
    if i == |phs| {
      assert phs[..i] == phs;
    } else {
      var n := |phs| - 1;
      LoadableButLast(phs, pie, len, base, limit);
      LoadablePrefix(phs[..n], i, pie, len, base, limit);
      assert phs[..n][..i] == phs[..i];
    }
  }

  lemma LoadableButLast(phs: seq<Ph>, pie: bool, len: nat, base: u64, limit: u64)
    requires Loadable(phs, pie, len, base, limit) && phs != []
    ensures Loadable(phs[..|phs| - 1], pie, len, base, limit)
  {
    var p, ps := phs[|phs| - 1], phs[..|phs| - 1];
    var segs := Loads(ps);
    if IsLoad(p) { TotalMore(segs, p); } else { assert Loads(phs) == segs; }
    assert |Dynamics(ps)| <= |Dynamics(phs)| && |Relros(ps)| <= |Relros(phs)|;
    forall i | 0 <= i < |ps| ensures PhOk(ps[i], pie, len, base, limit) { assert PhOk(phs[i], pie, len, base, limit); }
    forall i: nat, j: nat ensures ApartAt(segs, i, j) { assert ApartAt(Loads(phs), i, j); }
  }

  lemma TotalMore(segs: seq<Segment>, p: Ph)
    ensures Total(segs + [SegmentOf(p)]) == Total(segs) + p.memsz as nat
  {
    assert (segs + [SegmentOf(p)])[..|segs|] == segs;
  }

  /** What one more header must not clash with. */
  ghost predicate Fits(phs: seq<Ph>, p: Ph) {
    && (p.kind == PT_DYNAMIC ==> Dynamics(phs) == []) && (p.kind == GNU_RELRO && p.memsz != 0 ==> Relros(phs) == [])
    && (IsLoad(p) ==>
      |Loads(phs)| < MAX_SEGMENTS && Total(Loads(phs)) + p.memsz as nat <= MAX_IMAGE as nat
      && ApartFromAll(Loads(phs), SegmentOf(p)))
  }

  ghost predicate ApartFromAll(segs: seq<Segment>, s: Segment) { forall i :: 0 <= i < |segs| ==> Apart(segs[i], s) }

  lemma LoadableMore(phs: seq<Ph>, p: Ph, pie: bool, len: nat, base: u64, limit: u64)
    requires Loadable(phs, pie, len, base, limit)
    ensures Loadable(phs + [p], pie, len, base, limit) <==> PhOk(p, pie, len, base, limit) && Fits(phs, p)
  {
    var qs, segs, all := phs + [p], Loads(phs), Loads(phs + [p]);
    assert qs[..|phs|] == phs && qs[|phs|] == p;
    if IsLoad(p) { TotalMore(segs, p); assert all == segs + [SegmentOf(p)]; } else { assert all == segs; }
    if Loadable(qs, pie, len, base, limit) {
      assert PhOk(qs[|phs|], pie, len, base, limit);
      if IsLoad(p) {
        forall i | 0 <= i < |segs| ensures Apart(segs[i], SegmentOf(p)) { assert ApartAt(all, i, |segs|); }
      }
    }
    if PhOk(p, pie, len, base, limit) && Fits(phs, p) {
      forall i | 0 <= i < |qs| ensures PhOk(qs[i], pie, len, base, limit) { if i < |phs| { assert qs[i] == phs[i]; } }
      forall i: nat, j: nat ensures ApartAt(all, i, j) { assert ApartAt(segs, i, j); }
    }
  }

  // ---------------------------------------------------------------- the scan of the program headers

  datatype Scan = Scan(segments: seq<Segment>, relro: Option<Region>, dynamic: Option<Ph>, total: u64, alignment: u64)

  function RelroOf(phs: seq<Ph>): (r: Option<Region>)
  { var rs := Relros(phs); if rs != [] && End(rs[0]) < U64 then Some(Region(rs[0].vaddr, End(rs[0]) as u64)) else None }

  function DynamicOf(phs: seq<Ph>): (d: Option<Ph>) { if Dynamics(phs) == [] then None else Some(Dynamics(phs)[0]) }

  ghost predicate ScanOf(phs: seq<Ph>, c: Scan) {
    c.segments == Loads(phs) && c.relro == RelroOf(phs) && c.dynamic == DynamicOf(phs)
      && c.total as nat == Total(Loads(phs)) && c.alignment == Alignment(phs)
  }

  lemma ScanMore(phs: seq<Ph>, p: Ph, c: Scan, pie: bool, len: nat, base: u64, limit: u64)
    requires Loadable(phs, pie, len, base, limit) && ScanOf(phs, c) && PhOk(p, pie, len, base, limit) && Fits(phs, p)
    ensures ScanOf(phs + [p], Scan(
      if IsLoad(p) then c.segments + [SegmentOf(p)] else c.segments,
      if p.kind == GNU_RELRO && p.memsz != 0 then Some(Region(p.vaddr, p.vaddr + p.memsz)) else c.relro,
      if p.kind == PT_DYNAMIC then Some(p) else c.dynamic,
      if IsLoad(p) then c.total + p.memsz else c.total,
      if IsLoad(p) && p.align > c.alignment then p.align else c.alignment))
  {
    var qs := phs + [p];
    assert qs[..|phs|] == phs && qs[|phs|] == p;
    if IsLoad(p) { TotalMore(Loads(phs), p); } else { assert Loads(qs) == Loads(phs); }
    if p.kind != PT_DYNAMIC { assert Dynamics(qs) == Dynamics(phs); }
    if !(p.kind == GNU_RELRO && p.memsz != 0) { assert Relros(qs) == Relros(phs); }
  }

  /** Whether a segment's pages meet those of one before. */
  method Meets(segs: seq<Segment>, s: Segment) returns (meets: bool)
    requires s.vaddr as int + s.memsz as int + 4095 < U64 && forall i :: 0 <= i < |segs| ==>
      segs[i].vaddr as int + segs[i].memsz as int + 4095 < U64
    ensures meets <==> !ApartFromAll(segs, s)
  {
    var first, last := s.vaddr / PAGE, (s.vaddr + s.memsz + 4095) / PAGE;
    for i := 0 to |segs|
      invariant forall j :: 0 <= j < i ==> Apart(segs[j], s)
    {
      if first < (segs[i].vaddr + segs[i].memsz + 4095) / PAGE && segs[i].vaddr / PAGE < last { return true; }
    }
    meets := false;
  }

  method IsPowerOfTwo(n: u64) returns (b: bool)
    ensures b <==> PowerOfTwo(n as nat)
  {
    var m := n;
    while m > 1
      invariant PowerOfTwo(m as nat) <==> PowerOfTwo(n as nat)
      decreases m
    {
      if m % 2 != 0 { return false; }
      m := m / 2;
    }
    b := m == 1;
  }

  /** A loadable segment's own header. */
  method CheckLoad(p: Ph, pie: bool, len: nat, base: u64, limit: u64) returns (ok: bool)
    requires End(p) < U64 && len < U64
    ensures ok <==> LoadOk(p, pie, len, base, limit)
  {
    var end := p.vaddr + p.memsz;
    if p.align > 1 {
      var pow := IsPowerOfTwo(p.align);
      if !pow || p.vaddr % p.align != p.offset % p.align { return false; }
    }
    if pie && p.align > 65536 { return false; }
    if p.flags >= 8 || p.flags / 4 % 2 == 0 { return false; }
    if p.filesz > p.memsz || p.offset as int + p.filesz as int > len { return false; }
    if p.flags % 4 == 3 { return false; }
    if pie {
      if end > MAX_IMAGE { return false; }
    } else if p.vaddr < base || end > limit {
      return false;
    }
    ok := end as int + 4095 < U64;
  }

  /** One turn of the loop over the program headers. */
  method Header(p: Ph, pie: bool, len: nat, base: u64, limit: u64, c: Scan, ghost phs: seq<Ph>)
      returns (r: Option<Scan>)
    requires Loadable(phs, pie, len, base, limit) && ScanOf(phs, c) && len < U64
    ensures r.Some? <==> Loadable(phs + [p], pie, len, base, limit)
    ensures r.Some? ==> ScanOf(phs + [p], r.value)
  {
    LoadableMore(phs, p, pie, len, base, limit);
    if PhOk(p, pie, len, base, limit) && Fits(phs, p) { ScanMore(phs, p, c, pie, len, base, limit); }
    if p.vaddr as int + p.memsz as int >= U64 { return None; }
    var end, next := p.vaddr + p.memsz, c;
    if p.kind == PT_INTERP { return None; }
    if p.kind == GNU_STACK && p.flags % 2 == 1 { return None; }
    if p.kind == PT_DYNAMIC {
      if c.dynamic.Some? || !pie || p.filesz == 0 || p.filesz > p.memsz || p.filesz % 16 != 0 || p.filesz > 4096 {
        return None;
      }
      next := next.(dynamic := Some(p));
    }
    if p.kind == GNU_RELRO && p.memsz != 0 {
      RelroKnown(phs, pie, len, base, limit);
      if c.relro.Some? || p.vaddr % PAGE != 0 || end % PAGE != 0 { return None; }
      next := next.(relro := Some(Region(p.vaddr, end)));
    }
    if p.kind != PT_LOAD || p.memsz == 0 { return Some(next); }
    var ok := CheckLoad(p, pie, len, base, limit);
    if !ok { return None; }
    if p.align > c.alignment { next := next.(alignment := p.align); }
    if c.total as int + p.memsz as int > MAX_IMAGE as int { return None; }
    LoadsBounded(phs, pie, len, base, limit);
    var meets := Meets(c.segments, SegmentOf(p));
    if meets || |c.segments| == MAX_SEGMENTS { return None; }
    r := Some(next.(total := c.total + p.memsz, segments := c.segments + [SegmentOf(p)]));
  }

  lemma {:induction false} RelroKnown(phs: seq<Ph>, pie: bool, len: nat, base: u64, limit: u64)
    requires forall i :: 0 <= i < |phs| ==> PhOk(phs[i], pie, len, base, limit)
    ensures forall i :: 0 <= i < |Relros(phs)| ==> End(Relros(phs)[i]) < U64
  {
    if phs != [] {
      RelroKnown(phs[..|phs| - 1], pie, len, base, limit);
      assert PhOk(phs[|phs| - 1], pie, len, base, limit);
    }
  }

  /** What is known of each loadable segment. */
  ghost predicate SegmentOk(s: Segment, pie: bool, len: nat, base: u64, limit: u64) {
    && s.memsz > 0 && s.filesz <= s.memsz && s.offset as int + s.filesz as int <= len
    && s.vaddr as int + s.memsz as int + 4095 < U64 && !(s.writable && s.executable)
    && if pie then s.vaddr as int + s.memsz as int <= MAX_IMAGE as int
       else base <= s.vaddr && s.vaddr as int + s.memsz as int <= limit as int
  }

  lemma {:induction false} LoadsBounded(phs: seq<Ph>, pie: bool, len: nat, base: u64, limit: u64)
    requires forall i :: 0 <= i < |phs| ==> PhOk(phs[i], pie, len, base, limit)
    ensures forall i :: 0 <= i < |Loads(phs)| ==> SegmentOk(Loads(phs)[i], pie, len, base, limit)
  {
    if phs != [] {
      LoadsBounded(phs[..|phs| - 1], pie, len, base, limit);
      assert PhOk(phs[|phs| - 1], pie, len, base, limit);
    }
  }
}

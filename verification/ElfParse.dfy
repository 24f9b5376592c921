/** The dynamic table, the relocations and the whole of parse (src/memory/elf.rs:35-127). */
module ElfParse {
  import opened Base
  import opened Elf

  // ---------------------------------------------------------------- file_range

  predicate InFile(s: Segment, va: u64, len: u64)
  {
    va >= s.vaddr && va - s.vaddr <= s.filesz && len <= s.filesz - (va - s.vaddr)
  }

  /** Where the file holds `len` bytes of the image at `va`. */
  function FileRange(segs: seq<Segment>, va: u64, len: u64): (r: Option<int>) {
    if segs == [] then None
    else if InFile(segs[0], va, len) then Some(segs[0].offset as int + (va - segs[0].vaddr) as int)
    else FileRange(segs[1..], va, len)
  }

  lemma {:induction false} FileRangeIn(segs: seq<Segment>, va: u64, len: u64, pie: bool, size: nat, base: u64,
      limit: u64)
    requires forall i :: 0 <= i < |segs| ==> SegmentOk(segs[i], pie, size, base, limit)
    ensures FileRange(segs, va, len).Some? ==>
      0 <= FileRange(segs, va, len).value && FileRange(segs, va, len).value + len as int <= size
  {
    if segs != [] && !InFile(segs[0], va, len) { FileRangeIn(segs[1..], va, len, pie, size, base, limit); }
  }

  // ---------------------------------------------------------------- the dynamic table

  const DT_RELA: u64 := 7
  const DT_RELASZ: u64 := 8
  const DT_RELAENT: u64 := 9

  predicate Unsupported(tag: u64) { tag in {1, 2, 17, 18, 19, 20, 22, 23, 35, 36, 37} }

  function Tag(b: seq<byte>, file: nat, j: nat): (t: u64)
  {
    if file + 16 * j + 16 <= |b| then Rd64(b, file + 16 * j) else 0
  }

  function Value(b: seq<byte>, file: nat, j: nat): (v: u64)
  {
    if file + 16 * j + 16 <= |b| then Rd64(b, file + 16 * j + 8) else 0
  }

  /** The value of `tag` among the first `k` entries. */
  function FindTag(b: seq<byte>, file: nat, k: nat, tag: u64): (r: Option<u64>) {
    if k == 0 then None
    else if FindTag(b, file, k - 1, tag).Some? then FindTag(b, file, k - 1, tag)
    else if Tag(b, file, k - 1) == tag then Some(Value(b, file, k - 1)) else None
  }

  /** The first `k` entries end nothing, ask for nothing unsupported and describe the relocations at most once. */
  predicate Clean(b: seq<byte>, file: nat, k: nat) {
    k == 0 || (Clean(b, file, k - 1) && var t := Tag(b, file, k - 1);
      t != 0 && !Unsupported(t) && (DT_RELA <= t <= DT_RELAENT ==> FindTag(b, file, k - 1, t).None?))
  }

  ghost predicate TableEnds(b: seq<byte>, file: nat, n: nat, k: nat)
  {
    k < n && Tag(b, file, k) == 0 && Clean(b, file, k)
  }

  lemma {:induction false} CleanPrefix(b: seq<byte>, file: nat, j: nat, k: nat)
    requires Clean(b, file, k) && j <= k
    ensures Clean(b, file, j) && (j < k ==> Tag(b, file, j) != 0)
  {
    if j < k { CleanPrefix(b, file, j, k - 1); }
  }

  /** Nothing ends the table before or after an entry at which the scan gives up. */
  lemma NoEnd(b: seq<byte>, file: nat, n: nat, j: nat)
    requires Clean(b, file, j) && (j < n ==> Tag(b, file, j) != 0 && !Clean(b, file, j + 1))
    ensures forall k: nat :: !TableEnds(b, file, n, k)
  {
    forall k: nat | k < n && Tag(b, file, k) == 0 ensures !Clean(b, file, k) {
      if k < j { CleanPrefix(b, file, k, j); } else if Clean(b, file, k) { CleanPrefix(b, file, j + 1, k); }
    }
  }

  datatype Rela = Rela(table: Option<u64>, size: Option<u64>, entry: Option<u64>)

  function RelaAt(b: seq<byte>, file: nat, k: nat): (r: Rela)
  {
    Rela(FindTag(b, file, k, DT_RELA), FindTag(b, file, k, DT_RELASZ), FindTag(b, file, k, DT_RELAENT))
  }

  /** The loop over the dynamic table; it stops at the first null tag. */
  method ScanDynamic(b: seq<byte>, file: nat, n: nat) returns (r: Option<Rela>, ghost k: nat)
    requires file + 16 * n <= |b|
    ensures r.Some? ==> TableEnds(b, file, n, k) && r.value == RelaAt(b, file, k)
    ensures r.None? ==> forall j: nat :: !TableEnds(b, file, n, j)
  {
    var found := Rela(None, None, None);
    for j := 0 to n
      invariant Clean(b, file, j) && found == RelaAt(b, file, j)
    {
      var at := file + j * 16;
      var tag, value := Rd64(b, at), Rd64(b, at + 8);
      if tag == 0 { return Some(found), j; }
      if tag == DT_RELA {
        if found.table.Some? { NoEnd(b, file, n, j); return None, j; }
        found := found.(table := Some(value));
      } else if tag == DT_RELASZ {
        if found.size.Some? { NoEnd(b, file, n, j); return None, j; }
        found := found.(size := Some(value));
      } else if tag == DT_RELAENT {
        if found.entry.Some? { NoEnd(b, file, n, j); return None, j; }
        found := found.(entry := Some(value));
      } else if Unsupported(tag) {
        NoEnd(b, file, n, j);
        return None, j;
      }
    }
    NoEnd(b, file, n, n);
    r, k := None, n;
  }

  lemma {:induction false} OneEnd(b: seq<byte>, file: nat, n: nat, k: nat, k': nat)
    requires TableEnds(b, file, n, k) && TableEnds(b, file, n, k')
    ensures k == k'
  {
    if k < k' { CleanPrefix(b, file, k, k'); } else if k' < k { CleanPrefix(b, file, k', k); }
  }

  // ---------------------------------------------------------------- relocations

  function Target(b: seq<byte>, file: nat, i: nat): (t: u64)
  {
    if file + 24 * i + 24 <= |b| then Rd64(b, file + 24 * i) else 0
  }

  function Info(b: seq<byte>, file: nat, i: nat): (t: u64)
  {
    if file + 24 * i + 24 <= |b| then Rd64(b, file + 24 * i + 8) else 0
  }

  function Addend(b: seq<byte>, file: nat, i: nat): (t: u64)
  {
    if file + 24 * i + 24 <= |b| then Rd64(b, file + 24 * i + 16) else 0
  }

  predicate WritableAt(s: Segment, target: u64)
  {
    s.writable && s.vaddr <= target && target as int + 8 <= s.vaddr as int + s.memsz as int
  }

  ghost predicate InWritable(segs: seq<Segment>, target: u64)
  {
    exists i :: 0 <= i < |segs| && WritableAt(segs[i], target)
  }

  ghost predicate RelocOk(b: seq<byte>, file: nat, i: nat, segs: seq<Segment>, relative: u64) {
    Info(b, file, i) == relative && Target(b, file, i) % 8 == 0 && InWritable(segs, Target(b, file, i))
      && Addend(b, file, i) <= MAX_IMAGE
  }

  function Relative(machine: u64): (r: Option<u64>)
  {
    if machine == 62 then Some(8) else if machine == 183 then Some(1027) else None
  }

  /** The relocations the dynamic table describes can be applied; `file` is where they are. */
  ghost predicate RelaOk(b: seq<byte>, segs: seq<Segment>, machine: u64, d: Rela) {
    d == Rela(None, None, None)
      || (d.table.Some? && d.size.Some? && d.entry == Some(24) && d.size.value % 24 == 0
      && d.size.value / 24 <= MAX_RELOCS
      && FileRange(segs, d.table.value, d.size.value).Some? && FileRange(segs, d.table.value, d.size.value).value >= 0
      && Relative(machine).Some?
      && forall i: nat :: i < (d.size.value / 24) as nat ==>
        RelocOk(b, FileRange(segs, d.table.value, d.size.value).value, i, segs, Relative(machine).value))
  }

  method FindWritable(segs: seq<Segment>, target: u64) returns (ok: bool)
    requires forall i :: 0 <= i < |segs| ==> segs[i].vaddr as int + segs[i].memsz as int < U64
    ensures ok <==> InWritable(segs, target)
  {
    for i := 0 to |segs|
      invariant forall j :: 0 <= j < i ==> !WritableAt(segs[j], target)
    {
      var s := segs[i];
      if s.writable && target >= s.vaddr && target as int + 8 < U64 && target + 8 <= s.vaddr + s.memsz {
        assert WritableAt(segs[i], target);
        return true;
      }
    }
    ok := false;
  }

  method CheckRela(b: seq<byte>, segs: seq<Segment>, machine: u64, d: Rela, ghost pie: bool, ghost base: u64,
      ghost limit: u64) returns (r: Option<(nat, nat)>)
    requires forall i :: 0 <= i < |segs| ==> SegmentOk(segs[i], pie, |b|, base, limit)
    ensures r.Some? <==> RelaOk(b, segs, machine, d)
    ensures r.Some? ==>
      r.value.0 + 24 * r.value.1 <= |b|
      && (if d.table.None? then r.value.1 == 0
          else
            r.value.0 == FileRange(segs, d.table.value, d.size.value).value
            && r.value.1 == (d.size.value / 24) as nat)
  {
    if d == Rela(None, None, None) { return Some((0, 0)); }
    if d.table.None? || d.size.None? || d.entry != Some(24) || d.size.value % 24 != 0
        || d.size.value / 24 > MAX_RELOCS {
      return None;
    }
    var len := d.size.value;
    FileRangeIn(segs, d.table.value, len, pie, |b|, base, limit);
    var range := FileRange(segs, d.table.value, len);
    if range.None? || Relative(machine).None? { return None; }
    var file, count := range.value, (len / 24) as nat;
    for i := 0 to count
      invariant forall j: nat :: j < i ==> RelocOk(b, file, j, segs, Relative(machine).value)
    {
      var at := file + i * 24;
      var target, info := Rd64(b, at), Rd64(b, at + 8);
      ghost var fine := RelocOk(b, file, i, segs, Relative(machine).value);
      if info != Relative(machine).value { return None; }
      var inside := FindWritable(segs, target);
      if target % 8 != 0 || !inside { return None; }
      var addend := Rd64(b, at + 16);
      if addend >= 0x8000_0000_0000_0000 || addend > MAX_IMAGE { return None; }
      assert fine;
    }
    r := Some((file, count));
  }

  // ---------------------------------------------------------------- the whole file

  function Phoff(b: seq<byte>): (n: nat) requires |b| >= 64 { Rd64(b, 32) as nat }

  function PhSize(b: seq<byte>): (n: nat) requires |b| >= 64 { Rd16(b, 54) as nat }

  function PhCount(b: seq<byte>): (n: nat) requires |b| >= 64 { Rd16(b, 56) as nat }

  predicate Pie(b: seq<byte>) requires |b| >= 64 { Rd16(b, 16) == 3 }

  /** The file header. */
  ghost predicate WellHeaded(b: seq<byte>, machine: u64) {
    && |b| >= 64 && b[0] == 0x7f && b[1] == 0x45 && b[2] == 0x4c && b[3] == 0x46 && b[4] == 2 && b[5] == 1 && b[6] == 1
    && Rd32(b, 20) == 1
    && (Rd16(b, 16) == 2 || Rd16(b, 16) == 3) && Rd16(b, 18) == machine && Rd16(b, 52) == 64
    && PhSize(b) >= 56 && 0 < PhCount(b) <= 32 && HeadAt(Phoff(b), PhSize(b), PhCount(b)) <= |b|
  }

  function Phs(b: seq<byte>): (phs: seq<Ph>)
    requires |b| >= 64 && PhSize(b) >= 56 && HeadAt(Phoff(b), PhSize(b), PhCount(b)) <= |b|
  { Headers(b, Phoff(b), PhSize(b), PhCount(b)) }

  predicate Holds(s: Segment, entry: u64)
  {
    s.executable && s.vaddr <= entry && entry as int < s.vaddr as int + s.memsz as int
  }

  predicate Covers(s: Segment, r: Region)
  {
    s.writable && s.vaddr <= r.start && r.end as int <= s.vaddr as int + s.memsz as int
  }

  ghost predicate EntryOk(segs: seq<Segment>, entry: u64) { exists i :: 0 <= i < |segs| && Holds(segs[i], entry) }

  ghost predicate RelroOk(segs: seq<Segment>, relro: Option<Region>)
  {
    relro.Some? ==> exists i :: 0 <= i < |segs| && Covers(segs[i], relro.value)
  }

  /** The dynamic table is the file's and describes relocations that can be applied. */
  ghost predicate DynamicOk(b: seq<byte>, segs: seq<Segment>, machine: u64, d: Ph, k: nat) {
    && FileRange(segs, d.vaddr, d.filesz) == Some(d.offset as int)
    && TableEnds(b, d.offset as nat, d.filesz as nat / 16, k)
    && RelaOk(b, segs, machine, RelaAt(b, d.offset as nat, k))
  }

  /** The images parse accepts; `k` is where the dynamic table ends. */
  ghost predicate Accepts(b: seq<byte>, machine: u64, base: u64, limit: u64, k: nat) {
    WellHeaded(b, machine) && var segs := Loads(Phs(b));
    Loadable(Phs(b), Pie(b), |b|, base, limit) && EntryOk(segs, Rd64(b, 24)) && RelroOk(segs, RelroOf(Phs(b)))
    && (DynamicOf(Phs(b)).Some? ==> DynamicOk(b, segs, machine, DynamicOf(Phs(b)).value, k))
  }

  /** The image is what the file says. */
  ghost predicate ImageOf(b: seq<byte>, k: nat, m: Image)
    requires |b| >= 64 && PhSize(b) >= 56 && HeadAt(Phoff(b), PhSize(b), PhCount(b)) <= |b|
  {
    && m.entry == Rd64(b, 24) && m.pie == Pie(b) && m.alignment == Alignment(Phs(b)) && m.segments == Loads(Phs(b))
    && m.relro == RelroOf(Phs(b))
    && m.relocFile + 24 * m.relocCount <= |b|
    && match DynamicOf(Phs(b))
      case None => m.relocCount == 0
      case Some(d) => var rela := RelaAt(b, d.offset as nat, k);
        if rela.table.None? || rela.size.None? then m.relocCount == 0
        else
          Some(m.relocFile) == FileRange(m.segments, rela.table.value, rela.size.value)
          && m.relocCount == (rela.size.value / 24) as nat
  }

  method FindEntry(segs: seq<Segment>, entry: u64) returns (ok: bool)
    requires forall i :: 0 <= i < |segs| ==> segs[i].vaddr as int + segs[i].memsz as int < U64
    ensures ok <==> EntryOk(segs, entry)
  {
    for i := 0 to |segs|
      invariant forall j :: 0 <= j < i ==> !Holds(segs[j], entry)
    {
      if segs[i].executable && entry >= segs[i].vaddr && entry < segs[i].vaddr + segs[i].memsz {
        assert Holds(segs[i], entry);
        return true;
      }
    }
    ok := false;
  }

  method FindRelro(segs: seq<Segment>, relro: Option<Region>) returns (ok: bool)
    requires forall i :: 0 <= i < |segs| ==> segs[i].vaddr as int + segs[i].memsz as int < U64
    ensures ok <==> RelroOk(segs, relro)
  {
    if relro.None? { return true; }
    for i := 0 to |segs|
      invariant forall j :: 0 <= j < i ==> !Covers(segs[j], relro.value)
    {
      if segs[i].writable && relro.value.start >= segs[i].vaddr && relro.value.end <= segs[i].vaddr + segs[i].memsz {
        assert Covers(segs[i], relro.value);
        return true;
      }
    }
    ok := false;
  }

  /** The checks of the file header. */
  method CheckHead(b: seq<byte>, machine: u64) returns (ok: bool)
    requires |b| < U64
    ensures ok <==> WellHeaded(b, machine)
  {
    if |b| < 64 || b[0] != 0x7f || b[1] != 0x45 || b[2] != 0x4c || b[3] != 0x46 { return false; }
    if b[4] != 2 || b[5] != 1 || b[6] != 1 || Rd32(b, 20) != 1 { return false; }
    if Rd16(b, 16) != 2 && Rd16(b, 16) != 3 { return false; }
    if Rd16(b, 18) != machine { return false; }
    if Rd16(b, 52) != 64 { return false; }
    var size, count := Rd16(b, 54), Rd16(b, 56);
    if size < 56 || count == 0 || count > 32 { return false; }
    ok := TableFits(Rd64(b, 32), size, count, |b|);
  }

  method TableFits(phoff: u64, size: u64, count: u64, len: nat) returns (ok: bool)
    requires size < 0x1_0000 && count <= 32
    ensures ok <==> HeadAt(phoff as nat, size as nat, count as nat) <= len
  {
    HeadAtIs(phoff as nat, size as nat, count as nat);
    HeadAtIs(0, size as nat, count as nat);
    HeadAtMost(size as nat, count as nat);
    ok := phoff as int + (count * size) as int <= len;
  }

  lemma {:induction false} HeadAtMost(size: nat, n: nat)
    requires size < 0x1_0000
    ensures HeadAt(0, size, n) <= 0x1_0000 * n
  {
    if n > 0 { HeadAtMost(size, n - 1); }
  }

  method ReadHeader(b: seq<byte>, phoff: nat, size: nat, i: nat, ghost count: nat) returns (p: Ph)
    requires size >= 56 && HeadAt(phoff, size, count) <= |b| && i < count
    ensures p == Headers(b, phoff, size, count)[i]
  {
    HeadersAt(b, phoff, size, count, i);
    HeadAtIs(phoff, size, i);
    p := PhAt(b, phoff + i * size);
  }

  /** The loop over the program headers. */
  method ScanHeaders(b: seq<byte>, machine: u64, base: u64, limit: u64) returns (r: Option<Scan>)
    requires |b| < U64 && WellHeaded(b, machine)
    ensures r.Some? <==> Loadable(Phs(b), Pie(b), |b|, base, limit)
    ensures r.Some? ==> ScanOf(Phs(b), r.value)
  {
    var phoff, size, count := Rd64(b, 32) as nat, Rd16(b, 54) as nat, Rd16(b, 56) as nat;
    ghost var phs := Phs(b);
    var c := Scan([], None, None, 0, PAGE);
    for i := 0 to count
      invariant Loadable(phs[..i], Pie(b), |b|, base, limit) && ScanOf(phs[..i], c)
    {
      var p := ReadHeader(b, phoff, size, i, count);
      var next := Header(p, Pie(b), |b|, base, limit, c, phs[..i]);
      assert phs[..i] + [phs[i]] == phs[..i + 1];
      if next.None? {
        if Loadable(phs, Pie(b), |b|, base, limit) { LoadablePrefix(phs, i + 1, Pie(b), |b|, base, limit); }
        return None;
      }
      c := next.value;
    }
    assert phs[..count] == phs;
    r := Some(c);
  }

  /** The part of parse that reads the dynamic table. */
  method ReadDynamic(b: seq<byte>, segs: seq<Segment>, machine: u64, d: Ph, ghost pie: bool, ghost base: u64,
      ghost limit: u64) returns (r: Option<(nat, nat)>, ghost k: nat)
    requires |b| < U64 && d.filesz % 16 == 0 && forall i :: 0 <= i < |segs| ==>
      SegmentOk(segs[i], pie, |b|, base, limit)
    ensures r.Some? ==> DynamicOk(b, segs, machine, d, k) && r.value.0 + 24 * r.value.1 <= |b|
    ensures r.None? ==> forall j: nat :: !DynamicOk(b, segs, machine, d, j)
    ensures r.Some? ==> var rela := RelaAt(b, d.offset as nat, k);
      if rela.table.None? || rela.size.None? then r.value.1 == 0
      else
        Some(r.value.0) == FileRange(segs, rela.table.value, rela.size.value)
        && r.value.1 == (rela.size.value / 24) as nat
  {
    k := 0;
    FileRangeIn(segs, d.vaddr, d.filesz, pie, |b|, base, limit);
    var file := FileRange(segs, d.vaddr, d.filesz);
    if file.None? { return None, 0; }
    if file.value != d.offset as int { return None, 0; }
    var rela;
    rela, k := ScanDynamic(b, file.value, d.filesz as nat / 16);
    if rela.None? { return None, k; }
    r := CheckRela(b, segs, machine, rela.value, pie, base, limit);
    if r.None? {
      forall k': nat | TableEnds(b, d.offset as nat, d.filesz as nat / 16, k')
        ensures !DynamicOk(b, segs, machine, d, k')
      {
        OneEnd(b, d.offset as nat, d.filesz as nat / 16, k, k');
      }
    }
  }

  predicate TableSized(d: Ph, pie: bool) { pie && d.filesz % 16 == 0 }

  lemma {:induction false} DynamicSize(phs: seq<Ph>, pie: bool, len: nat, base: u64, limit: u64)
    requires forall i :: 0 <= i < |phs| ==> PhOk(phs[i], pie, len, base, limit)
    ensures forall i :: 0 <= i < |Dynamics(phs)| ==> TableSized(Dynamics(phs)[i], pie)
  {
    if phs != [] {
      var n := |phs| - 1;
      DynamicSize(phs[..n], pie, len, base, limit);
      assert PhOk(phs[n], pie, len, base, limit);
      assert Dynamics(phs) == Dynamics(phs[..n]) + if phs[n].kind == PT_DYNAMIC then [phs[n]] else [];
    }
  }

  /** parse: accepts exactly the loadable images, and says what is in them. */
  method Parse(b: seq<byte>, machine: u64, base: u64, limit: u64) returns (r: Option<Image>, ghost k: nat)
    requires |b| < U64
    ensures r.Some? ==> Accepts(b, machine, base, limit, k) && ImageOf(b, k, r.value)
    ensures r.None? ==> forall j: nat :: !Accepts(b, machine, base, limit, j)
  {
    k := 0;
    var ok := CheckHead(b, machine);
    if !ok { return None, 0; }
    var c := ScanHeaders(b, machine, base, limit);
    if c.None? { return None, 0; }
    LoadsBounded(Phs(b), Pie(b), |b|, base, limit);
    DynamicSize(Phs(b), Pie(b), |b|, base, limit);
    var segs := c.value.segments;
    ok := FindEntry(segs, Rd64(b, 24));
    if !ok { return None, 0; }
    ok := FindRelro(segs, c.value.relro);
    if !ok { return None, 0; }
    var relocs := Some((0, 0));
    if c.value.dynamic.Some? {
      relocs, k := ReadDynamic(b, segs, machine, c.value.dynamic.value, Pie(b), base, limit);
      if relocs.None? { return None, k; }
    }
    r := Some(Image(Rd64(b, 24), Pie(b), c.value.alignment, segs, c.value.relro, relocs.value.0, relocs.value.1));
  }
}

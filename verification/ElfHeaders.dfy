/** The program headers of an accepted file, read straight from its bytes. */
module ElfHeaders {
  import opened Base
  import opened Elf
  import opened ElfParse

  /** What the file header of an accepted file says. */
  lemma HeadBytes(b: seq<byte>, machine: u64, base: u64, limit: u64, k: nat, m: Image)
    requires Accepts(b, machine, base, limit, k) && ImageOf(b, k, m)
    ensures |b| >= 64 && b[..7] == [0x7f, 'E' as byte, 'L' as byte, 'F' as byte, 2, 1, 1]
    ensures b[17] == 0 && (b[16] == 2 || b[16] == 3) && (m.pie <==> b[16] == 3)
    ensures b[18] as nat + 0x100 * b[19] as nat == machine as nat
    ensures m.entry as nat == b[24] as nat + 0x100 * b[25] as nat + 0x1_0000 * Rd16(b, 26) as nat
      + 0x1_0000_0000 * Rd32(b, 28) as nat
  {}

  /** Every relocation of an accepted file is of the one kind the machine has for a moved image. */
  lemma RelocKinds(b: seq<byte>, machine: u64, base: u64, limit: u64, k: nat, m: Image, r: nat)
    requires Accepts(b, machine, base, limit, k) && ImageOf(b, k, m) && r < m.relocCount
    ensures m.relocFile + 24 * r + 24 <= |b|
    ensures (machine == 62 && Rd64(b, m.relocFile + 24 * r + 8) == 8)
      || (machine == 183 && Rd64(b, m.relocFile + 24 * r + 8) == 1027)
    ensures Rd64(b, m.relocFile + 24 * r) % 8 == 0 && Rd64(b, m.relocFile + 24 * r + 16) <= 0x400_0000
  {
    var d := DynamicOf(Phs(b)).value;
    var rela := RelaAt(b, d.offset as nat, k);
    assert RelocOk(b, FileRange(m.segments, rela.table.value, rela.size.value).value, r, m.segments,
      Relative(machine).value);
  }

  /** Nothing in the dynamic table asks for another library or another kind of relocation. */
  lemma {:induction false} CleanTags(b: seq<byte>, file: nat, k: nat, j: nat)
    requires Clean(b, file, k) && j < k && file + 16 * j + 16 <= |b|
    ensures Rd64(b, file + 16 * j) !in {0, 1, 2, 17, 18, 19, 20, 22, 23, 35, 36, 37}
  {
    if j < k - 1 { CleanTags(b, file, k - 1, j); }
  }

  /** Program header `h` starts at byte `at`. */
  ghost predicate HeaderAt(b: seq<byte>, h: nat, at: nat) {
    |b| >= 64 && h < Rd16(b, 56) as nat && at == Rd64(b, 32) as nat + h * Rd16(b, 54) as nat && at + 56 <= |b|
  }

  /** Header `h` is of this kind and covers memory. */
  ghost predicate Describes(b: seq<byte>, h: nat, at: nat, kind: nat) {
    HeaderAt(b, h, at) && Rd32(b, at) as nat == kind && Rd64(b, at + 40) as nat != 0
  }

  /** The memory at `a` is covered by the header at `at`. */
  ghost predicate Covered(b: seq<byte>, at: nat, a: nat) {
    at + 56 <= |b| && Rd64(b, at + 16) as nat <= a < Rd64(b, at + 16) as nat + Rd64(b, at + 40) as nat
  }

  /** A header of kind PT_GNU_RELRO covers every address of the page. */
  ghost predicate Protected(b: seq<byte>, h: nat, at: nat, page: nat) {
    Describes(b, h, at, 0x6474e552) && forall a: nat :: 4096 * page <= a < 4096 * page + 4096 ==> Covered(b, at, a)
  }

  lemma HeaderIs(b: seq<byte>, machine: u64, h: nat, at: nat)
    requires WellHeaded(b, machine) && HeaderAt(b, h, at)
    ensures h < |Phs(b)| && Phs(b)[h] == PhAt(b, at)
  {
    HeadersAt(b, Phoff(b), PhSize(b), PhCount(b), h);
    HeadAtIs(Phoff(b), PhSize(b), h);
  }

  lemma HeaderHas(b: seq<byte>, machine: u64, h: nat) returns (at: nat)
    requires WellHeaded(b, machine) && h < |Phs(b)|
    ensures HeaderAt(b, h, at) && Phs(b)[h] == PhAt(b, at)
  {
    HeadersAt(b, Phoff(b), PhSize(b), PhCount(b), h);
    HeadAtIs(Phoff(b), PhSize(b), h);
    at := HeadAt(Phoff(b), PhSize(b), h);
  }

  lemma {:induction false} LoadFrom(phs: seq<Ph>, h: nat) returns (i: nat)
    requires h < |phs| && IsLoad(phs[h])
    ensures i < |Loads(phs)| && Loads(phs)[i] == SegmentOf(phs[h])
  {
    var n := |phs| - 1;
    if h < n { i := LoadFrom(phs[..n], h); } else { i := |Loads(phs[..n])|; }
  }

  lemma {:induction false} LoadComes(phs: seq<Ph>, i: nat) returns (h: nat)
    requires i < |Loads(phs)|
    ensures h < |phs| && IsLoad(phs[h]) && Loads(phs)[i] == SegmentOf(phs[h])
  {
    var n := |phs| - 1;
    if i < |Loads(phs[..n])| { h := LoadComes(phs[..n], i); } else { h := n; }
  }

  predicate IsRelro(p: Ph) { p.kind == GNU_RELRO && p.memsz != 0 }

  lemma {:induction false} RelroFrom(phs: seq<Ph>, h: nat)
    requires h < |phs| && IsRelro(phs[h])
    ensures phs[h] in Relros(phs)
  {
    if h < |phs| - 1 { RelroFrom(phs[..|phs| - 1], h); }
  }

  lemma {:induction false} RelroComes(phs: seq<Ph>, i: nat) returns (h: nat)
    requires i < |Relros(phs)|
    ensures h < |phs| && IsRelro(phs[h]) && Relros(phs)[i] == phs[h]
  {
    var n := |phs| - 1;
    if i < |Relros(phs[..n])| { h := RelroComes(phs[..n], i); } else { h := n; }
  }

  /** The region of an accepted image is what its one PT_GNU_RELRO header covers. */
  lemma RelroIs(b: seq<byte>, machine: u64, base: u64, limit: u64, k: nat, m: Image, h: nat, at: nat)
    requires Accepts(b, machine, base, limit, k) && ImageOf(b, k, m) && Describes(b, h, at, 0x6474e552)
    ensures m.relro.Some? && m.relro.value.start == Rd64(b, at + 16)
      && m.relro.value.end as nat == Rd64(b, at + 16) as nat + Rd64(b, at + 40) as nat
  {
    HeaderIs(b, machine, h, at);
    RelroFrom(Phs(b), h);
    RelroKnown(Phs(b), m.pie, |b|, base, limit);
  }

  lemma RelroHas(b: seq<byte>, machine: u64, base: u64, limit: u64, k: nat, m: Image) returns (h: nat, at: nat)
    requires Accepts(b, machine, base, limit, k) && ImageOf(b, k, m) && m.relro.Some?
    ensures Describes(b, h, at, 0x6474e552)
  {
    h := RelroComes(Phs(b), 0);
    at := HeaderHas(b, machine, h);
  }

  /** The segment a load header stands for. */
  lemma LoadIs(b: seq<byte>, machine: u64, base: u64, limit: u64, k: nat, m: Image, h: nat, at: nat) returns (i: nat)
    requires Accepts(b, machine, base, limit, k) && ImageOf(b, k, m) && Describes(b, h, at, 1)
    ensures i < |m.segments| && m.segments[i] == Segment(Rd64(b, at + 16), Rd64(b, at + 40), Rd64(b, at + 8),
      Rd64(b, at + 32), Rd32(b, at + 4) / 2 % 2 == 1, Rd32(b, at + 4) % 2 == 1)
  {
    HeaderIs(b, machine, h, at);
    i := LoadFrom(Phs(b), h);
  }

  /** The load header a segment comes from. */
  lemma LoadHas(b: seq<byte>, machine: u64, base: u64, limit: u64, k: nat, m: Image, i: nat) returns (h: nat, at: nat)
    requires Accepts(b, machine, base, limit, k) && ImageOf(b, k, m) && i < |m.segments|
    ensures Describes(b, h, at, 1) && m.segments[i].vaddr == Rd64(b, at + 16) && m.segments[i].memsz == Rd64(b, at + 40)
  {
    h := LoadComes(Phs(b), i);
    at := HeaderHas(b, machine, h);
  }
}

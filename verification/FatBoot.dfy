/** What a boot sector means (section 3 of the Microsoft FAT Specification), and that probe reads exactly that. */
module FatBoot {
  import opened Base
  import opened FatTable

  /** A FAT boot sector: a jump, the signature, sectors of 512 bytes, and not the mark of another file system. */
  ghost predicate Signed(b: seq<byte>)
    requires |b| == 512
  {
    && (b[0] == 0xeb || b[0] == 0xe9) && b[510] == 0x55 && b[511] == 0xaa && U16(b, 11) == 512
    && b[3..11] != [0x45, 0x58, 0x46, 0x41, 0x54, 0x20, 0x20, 0x20]
  }

  /** The sizes in the boot sector: `all` sectors, `size` sectors a table, `root` sectors of fixed root. */
  ghost predicate Sizes(b: seq<byte>, all: nat, size: nat, root: nat)
    requires |b| == 512
  {
    && all == (if U16(b, 19) != 0 then U16(b, 19) else U32(b, 32))
    && size == (if U16(b, 22) != 0 then U16(b, 22) else U32(b, 36))
    && 512 * root < 32 * U16(b, 17) + 512 && 32 * U16(b, 17) <= 512 * root
  }

  /** Where everything lies, one after the other; `clusters` is the number of whole clusters. */
  ghost predicate Laid(b: seq<byte>, start: nat, length: nat, g: Geometry, all: nat, root: nat)
    requires |b| == 512
  {
    && Sizes(b, all, g.fatSectors, root) && all <= length
    && g.spc == b[13] as nat && g.fats == b[16] as nat && g.fatSectors > 0 && U16(b, 14) > 0
    && g.spc in {1, 2, 4, 8, 16, 32, 64, 128} && (g.fats == 1 || g.fats == 2)
    && g.fatLba == start + U16(b, 14) && g.rootLba == g.fatLba + g.fats * g.fatSectors
    && g.dataLba == g.rootLba + root && g.clusters > 0
    && g.dataLba - start + g.clusters * g.spc <= all < g.dataLba - start + g.clusters * g.spc + g.spc
  }

  /** The width of an entry in bits. */
  ghost function Bits(k: Kind): (n: nat) { match k case Fat12 => 12 case Fat16 => 16 case Fat32 => 32 }

  /** The kind goes by the number of clusters alone, and the table has an entry for each of them. */
  ghost predicate Fitting(g: Geometry) {
    && (g.kind == Fat12 <==> g.clusters < 4085) && (g.kind == Fat32 <==> g.clusters >= 65525)
    && g.clusters <= 0x0fff_ffee
    && Bits(g.kind) * (g.clusters + 2) <= 8 * 512 * g.fatSectors && 512 * g.fatSectors <= 8 * 1024 * 1024
  }

  /** The root directory and the active table. */
  ghost predicate Rooted(b: seq<byte>, g: Geometry)
    requires |b| == 512
  {
    if g.kind == Fat32 then
      && U16(b, 17) == 0 && U16(b, 22) == 0 && U16(b, 42) == 0 && g.rootEntries == 0
      && g.rootCluster == U32(b, 44) % 0x1000_0000 && 2 <= g.rootCluster < g.clusters + 2
      && (g.mirrored <==> b[40] < 0x80) && g.active == (if g.mirrored then 0 else b[40] as nat % 16)
      && g.active < g.fats
    else
      && U16(b, 17) != 0 && U16(b, 22) != 0 && g.rootEntries == U16(b, 17) && g.rootCluster == 0
      && g.mirrored && g.active == 0
  }

  ghost predicate Means(b: seq<byte>, start: nat, length: nat, g: Geometry, all: nat, root: nat)
    requires |b| == 512
  { Signed(b) && Laid(b, start, length, g, all, root) && Fitting(g) && Rooted(b, g) }

  lemma RootIs(b: seq<byte>, all: nat, size: nat, root: nat)
    requires |b| == 512
    ensures Sizes(b, all, size, root) <==> all == Total(b) && size == FatSectors(b) && root == RootSectors(b)
  {
    var n := U16(b, 17) * 32 + 511;
    assert n == 512 * (n / 512) + n % 512;
  }

  /** Whole clusters in the sectors left for data. */
  lemma WholeIs(left: nat, spc: nat, n: nat)
    requires spc > 0
    ensures n * spc <= left < n * spc + spc <==> n == left / spc
  {
    if n * spc <= left < n * spc + spc { DivMod(left, spc, n, left - n * spc); }
    if n == left / spc { assert left == n * spc + left % spc; }
  }

  lemma NeededIs(k: Kind, clusters: nat, size: nat)
    ensures Needed(k, clusters) <= size * 512 <==> Bits(k) * (clusters + 2) <= 8 * 512 * size
  {}

  /** The parts of probe, `left` sectors being left for data. */
  lemma ProbeLaid(b: seq<byte>, start: nat, length: nat, g: Geometry, left: int)
    requires |b| == 512 && g.fats == b[16] as nat && g.fatSectors == FatSectors(b) && g.spc == b[13] as nat > 0
    requires g.fatLba == start + U16(b, 14) && g.rootLba == g.fatLba + g.fats * g.fatSectors
      && g.dataLba == g.rootLba + RootSectors(b) && left == Total(b) - Overhead(b)
    ensures Laid(b, start, length, g, Total(b), RootSectors(b)) <==>
      GoodShape(b, length) && 0 < g.clusters && left > 0 && g.clusters == left / g.spc
  {
    RootIs(b, Total(b), g.fatSectors, RootSectors(b));
    assert g.dataLba - start == Overhead(b);
    if left >= 0 { WholeIs(left, g.spc, g.clusters); }
  }

  lemma ActiveIs(b: seq<byte>)
    requires |b| == 512
    ensures U16(b, 40) / 0x80 % 2 == 0 <==> b[40] < 0x80
    ensures U16(b, 40) % 16 == b[40] as nat % 16
  {
    var x, y := b[40] as nat, b[41] as nat;
    DivMod(x + 256 * y, 0x80, x / 0x80 + 2 * y, x % 0x80);
    DivMod(x + 256 * y, 16, x / 16 + 16 * y, x % 16);
  }

  /** What probe accepts has that meaning. */
  lemma ProbeMeans(b: seq<byte>, start: nat, length: nat)
    requires |b| == 512 && Probe(b, start, length).Some?
    ensures Means(b, start, length, Probe(b, start, length).value, Total(b), RootSectors(b))
  {
    var g := Probe(b, start, length).value;
    ProbeLaid(b, start, length, g, Total(b) - Overhead(b));
    NeededIs(g.kind, g.clusters, g.fatSectors);
    ActiveIs(b);
  }

  /** And it accepts whatever has one. */
  lemma MeansProbe(b: seq<byte>, start: nat, length: nat, g: Geometry, all: nat, root: nat)
    requires |b| == 512 && Means(b, start, length, g, all, root)
    ensures Probe(b, start, length) == Some(g)
  {
    RootIs(b, all, g.fatSectors, root);
    ProbeLaid(b, start, length, g, Total(b) - Overhead(b));
    NeededIs(g.kind, g.clusters, g.fatSectors);
    ActiveIs(b);
  }
}

/**
  A volume as its cluster table and the contents of its clusters
  (src/fs/fat.rs): chains, the items a directory shows, and what a write may
  touch without changing them. A cluster's contents are given in slots of 32
  bytes, sixteen to a sector. The fixed root of a FAT12 or FAT16 volume is kept
  as the contents of number 1, which is no cluster. The table is the copy that
  is read when the volume is mounted.
 */
module FatVolume {
  import opened Base
  import opened FatTable
  import opened FatNames
  import opened FatDirectory
  import opened FatShort

  const MAX_FILE: nat := 16 * 1024 * 1024

  /**
    Slots of a cluster and of the fixed root, the most clusters the driver follows
    for a directory and for a file, and how many copies of the table it maintains.
   */
  datatype Geo = Geo(kind: Kind, per: nat, rootSlots: nat, dirLimit: nat, fileLimit: nat, copies: nat)

  function Whole(max: nat, bytes: nat): (n: nat)
    requires bytes > 0
  { max / bytes }

  /** What the driver works with on a volume that probe has accepted. */
  function GeoOf(v: Geometry): (g: Geo)
    requires v.spc > 0
  {
    Geo(v.kind, 16 * v.spc, v.rootEntries, Whole(MAX_METADATA, 512 * v.spc), Whole(MAX_FILE, 512 * v.spc) + 1,
      if v.mirrored then v.fats else 1)
  }

  ghost predicate Probed(v: Geometry)
  {
    exists b: seq<byte>, start: nat, length: nat :: |b| == SECTOR && Probe(b, start, length) == Some(v)
  }

  /**
    The limits are the largest that respect the size limits: the clusters followed
    for a directory are at most 8 MB, and those followed for a file hold every
    file of at most 16 MB.
   */
  ghost predicate Limits(g: Geo) {
    && 32 * Pos(g.dirLimit, g.per) <= MAX_METADATA < 32 * Pos(g.dirLimit + 1, g.per)
    && g.fileLimit > 0 && 32 * Pos(g.fileLimit - 1, g.per) <= MAX_FILE < 32 * Pos(g.fileLimit, g.per)
    && g.rootSlots < 0x1_0000 && 1 <= g.copies <= 2
  }

  datatype Disk = Disk(fat: seq<nat>, area: seq<seq<Slot>>)

  /** A directory: the fixed root of FAT12 and FAT16, or one at a cluster, which on FAT32 may be the root as well. */
  datatype Dir = FixedRoot | At(cluster: nat, root: bool)

  /** root: the directory every path starts from. */
  function RootOf(v: Geometry): (dir: Dir) { if v.kind == Fat32 then At(v.rootCluster, true) else FixedRoot }

  // ---------------------------------------------------------------- chains

  /** The chain from cluster `c`, if it ends within `n` clusters. */
  function Follow(kind: Kind, fat: seq<nat>, c: nat, n: nat): (r: Option<seq<nat>>)
    decreases n
  {
    if n == 0 || c < 2 || c >= |fat| then None
    else if IsEof(kind, fat[c]) then Some([c])
    else match Follow(kind, fat, fat[c], n - 1) case Some(cs) => Some([c] + cs) case None => None
  }

  ghost predicate Linked(kind: Kind, fat: seq<nat>, cs: seq<nat>) {
    && cs != [] && (forall i :: 0 <= i < |cs| ==> 2 <= cs[i] < |fat|)
    && (forall i {:trigger fat[cs[i]]} :: 0 <= i < |cs| - 1 ==> fat[cs[i]] == cs[i + 1] && !IsEof(kind, fat[cs[i]]))
    && IsEof(kind, fat[cs[|cs| - 1]])
  }

  lemma {:induction false} FollowLinked(kind: Kind, fat: seq<nat>, c: nat, n: nat)
    requires Follow(kind, fat, c, n).Some?
    ensures Linked(kind, fat, Follow(kind, fat, c, n).value) && Follow(kind, fat, c, n).value[0] == c
    decreases n
  {
    if !IsEof(kind, fat[c]) { FollowLinked(kind, fat, fat[c], n - 1); }
  }

  lemma {:induction false} LinkedFollow(kind: Kind, fat: seq<nat>, cs: seq<nat>, n: nat)
    requires Linked(kind, fat, cs) && n >= |cs|
    ensures Follow(kind, fat, cs[0], n) == Some(cs)
    decreases |cs|
  {
    if |cs| > 1 {
      LinkedFollow(kind, fat, cs[1..], n - 1);
      assert cs == [cs[0]] + cs[1..];
    } else {
      assert cs == [cs[0]];
    }
  }

  lemma {:induction false} LinkedDistinct(kind: Kind, fat: seq<nat>, cs: seq<nat>, i: nat, j: nat)
    requires Linked(kind, fat, cs) && i < j < |cs|
    ensures cs[i] != cs[j]
    decreases |cs| - j
  {
    assert fat[cs[i]] == cs[i + 1] && !IsEof(kind, fat[cs[i]]);
    if j < |cs| - 1 {
      LinkedDistinct(kind, fat, cs, i + 1, j + 1);
      assert fat[cs[j]] == cs[j + 1];
    }
  }

  ghost predicate NoDup(cs: seq<nat>) { forall i, j :: 0 <= i < j < |cs| ==> cs[i] != cs[j] }

  lemma {:induction false} NoDupShort(cs: seq<nat>, n: nat)
    requires NoDup(cs) && forall i :: 0 <= i < |cs| ==> cs[i] < n
    ensures |cs| <= n
    decreases n
  {
    if cs != [] {
      assert cs[0] < n;
      if n - 1 in cs {
        var k :| 0 <= k < |cs| && cs[k] == n - 1;
        var rest := cs[..k] + cs[k + 1..];
        assert forall i :: 0 <= i < |rest| ==> rest[i] == cs[if i < k then i else i + 1];
        NoDupShort(rest, n - 1);
      } else {
        NoDupShort(cs, n - 1);
      }
    }
  }

  /** A linked chain has no repeated cluster, so it is what following finds, and the only one. */
  lemma LinkedChain(kind: Kind, fat: seq<nat>, cs: seq<nat>)
    requires Linked(kind, fat, cs)
    ensures NoDup(cs) && |cs| <= |fat| && Chain(kind, fat, cs[0]) == Some(cs)
  {
    forall i, j | 0 <= i < j < |cs| ensures cs[i] != cs[j] { LinkedDistinct(kind, fat, cs, i, j); }
    NoDupShort(cs, |fat|);
    LinkedFollow(kind, fat, cs, |fat|);
  }

  /** The chain of an entry whose first cluster is `first`; an empty file has none. */
  function Chain(kind: Kind, fat: seq<nat>, first: nat): (r: Option<seq<nat>>) {
    if first == 0 then Some([]) else Follow(kind, fat, first, |fat|)
  }

  function DirChain(kind: Kind, fat: seq<nat>, dir: Dir): (r: Option<seq<nat>>) {
    if dir.FixedRoot? then Some([1]) else Follow(kind, fat, dir.cluster, |fat|)
  }

  /** Chains survive changes to other entries. */
  lemma ChainKept(kind: Kind, fat: seq<nat>, fat': seq<nat>, first: nat, cs: seq<nat>)
    requires Chain(kind, fat, first) == Some(cs) && |fat'| == |fat| && forall c :: c in cs && c < |fat| ==>
      fat'[c] == fat[c]
    ensures Chain(kind, fat', first) == Some(cs)
  {
    if first != 0 {
      FollowLinked(kind, fat, first, |fat|);
      assert forall i :: 0 <= i < |cs| ==> cs[i] in cs;
      LinkedChain(kind, fat', cs);
    }
  }

  lemma DirChainKept(kind: Kind, fat: seq<nat>, fat': seq<nat>, dir: Dir, ch: seq<nat>)
    requires DirChain(kind, fat, dir) == Some(ch) && |fat'| == |fat| && forall c :: c in ch && c < |fat| ==>
      fat'[c] == fat[c]
    ensures DirChain(kind, fat', dir) == Some(ch)
  {
    if dir.At? { ChainKept(kind, fat, fat', dir.cluster, ch); }
  }

  // ---------------------------------------------------------------- contents

  function Gather(area: seq<seq<Slot>>, cs: seq<nat>): (slots: seq<Slot>) {
    if cs == [] then [] else (if cs[0] < |area| then area[cs[0]] else []) + Gather(area, cs[1..])
  }

  lemma {:induction false} GatherKept(area: seq<seq<Slot>>, area': seq<seq<Slot>>, cs: seq<nat>)
    requires |area| == |area'| && forall c :: c in cs && c < |area| ==> area[c] == area'[c]
    ensures Gather(area, cs) == Gather(area', cs)
  {
    if cs != [] { GatherKept(area, area', cs[1..]); }
  }

  lemma {:induction false} GatherConcat(area: seq<seq<Slot>>, a: seq<nat>, b: seq<nat>)
    ensures Gather(area, a + b) == Gather(area, a) + Gather(area, b)
  {
    if a == [] {
      assert a + b == b;
    } else {
      GatherConcat(area, a[1..], b);
      assert (a + b)[1..] == a[1..] + b && (a + b)[0] == a[0];
      ConcatAssoc(if a[0] < |area| then area[a[0]] else [], Gather(area, a[1..]), Gather(area, b));
    }
  }

  function Splice(xs: seq<Slot>, at: nat, ys: seq<Slot>): (r: seq<Slot>)
    requires at + |ys| <= |xs|
    ensures |r| == |xs| && forall i :: 0 <= i < |xs| ==> r[i] == if at <= i < at + |ys| then ys[i - at] else xs[i]
  { xs[..at] + ys + xs[at + |ys|..] }

  ghost predicate Wide(area: seq<seq<Slot>>, cs: seq<nat>, width: nat)
  {
    forall i :: 0 <= i < |cs| ==> cs[i] < |area| && |area[cs[i]]| == width
  }

  lemma {:induction false} GatherLength(area: seq<seq<Slot>>, cs: seq<nat>, width: nat)
    requires Wide(area, cs, width)
    ensures |Gather(area, cs)| == Pos(|cs|, width)
  {
    if cs != [] { GatherLength(area, cs[1..], width); }
  }

  lemma SpliceAfter(xs: seq<Slot>, ys: seq<Slot>, at: nat, zs: seq<Slot>)
    requires at + |zs| <= |ys|
    ensures xs + Splice(ys, at, zs) == Splice(xs + ys, |xs| + at, zs)
  {}

  lemma SpliceBefore(xs: seq<Slot>, ys: seq<Slot>, at: nat, zs: seq<Slot>)
    requires at + |zs| <= |xs|
    ensures Splice(xs, at, zs) + ys == Splice(xs + ys, at, zs)
  {}

  /** Where the contents of the chain's cluster number `q` begin. */
  function Pos(q: nat, width: nat): (n: nat) { if q == 0 then 0 else width + Pos(q - 1, width) }

  lemma {:induction false} PosIs(q: nat, width: nat)
    ensures Pos(q, width) == q * width
  {
    if q > 0 {
      PosIs(q - 1, width);
      assert width + (q - 1) * width == q * width;
    }
  }

  lemma WholeLimit(max: nat, bytes: nat)
    requires bytes > 0
    ensures Whole(max, bytes) * bytes <= max < (Whole(max, bytes) + 1) * bytes
  {
    Euclid(max, bytes);
    assert bytes * (max / bytes) == max / bytes * bytes && (max / bytes + 1) * bytes == max / bytes * bytes + bytes;
  }

  lemma ClusterBytes(n: nat, spc: nat)
    ensures 32 * Pos(n, 16 * spc) == n * (512 * spc)
  {
    PosIs(n, 16 * spc);
    assert 32 * (n * (16 * spc)) == n * (512 * spc);
  }

  lemma LimitIs(max: nat, spc: nat, n: nat)
    requires spc > 0 && n == Whole(max, 512 * spc)
    ensures 32 * Pos(n, 16 * spc) <= max < 32 * Pos(n + 1, 16 * spc)
  {
    WholeLimit(max, 512 * spc);
    ClusterBytes(n, spc);
    ClusterBytes(n + 1, spc);
  }

  /** Sectors in a cluster, and cluster numbers that never read as end of chain. */
  lemma ProbedShape(v: Geometry)
    requires Probed(v)
    ensures v.spc > 0 && 3 <= v.clusters + 2 <= Eof(v.kind) - 7 && v.rootEntries < 0x1_0000 && 1 <= v.fats <= 2
  {
    var b: seq<byte>, start: nat, length: nat :| |b| == SECTOR && Probe(b, start, length) == Some(v);
  }

  /** The limits of every volume that probe accepts. */
  lemma GeoLimits(v: Geometry)
    requires Probed(v)
    ensures v.spc > 0 && 16 <= GeoOf(v).per && GeoOf(v).per % 16 == 0 && Limits(GeoOf(v))
  {
    ProbedShape(v);
    var g := GeoOf(v);
    LimitIs(MAX_METADATA, v.spc, g.dirLimit);
    LimitIs(MAX_FILE, v.spc, g.fileLimit - 1);
    DivMod(g.per, 16, v.spc, 0);
  }

  lemma GatherSpliceFirst(area: seq<seq<Slot>>, cs: seq<nat>, off: nat, ss: seq<Slot>, area': seq<seq<Slot>>)
    requires NoDup(cs) && cs != [] && cs[0] < |area| && off + |ss| <= |area[cs[0]]|
    requires area' == area[cs[0] := Splice(area[cs[0]], off, ss)]
    ensures off + |ss| <= |Gather(area, cs)| && Gather(area', cs) == Splice(Gather(area, cs), off, ss)
  {
    assert cs[0] !in cs[1..] by { assert forall i :: 0 <= i < |cs| - 1 ==> cs[1..][i] == cs[i + 1]; }
    GatherKept(area, area', cs[1..]);
    SpliceBefore(area[cs[0]], Gather(area, cs[1..]), off, ss);
  }

  lemma GatherSpliceRest(area: seq<seq<Slot>>, area': seq<seq<Slot>>, cs: seq<nat>, at: nat, ss: seq<Slot>)
    requires cs != [] && cs[0] < |area| == |area'| && area'[cs[0]] == area[cs[0]]
    requires at + |ss| <= |Gather(area, cs[1..])| && Gather(area', cs[1..]) == Splice(Gather(area, cs[1..]), at, ss)
    ensures |area[cs[0]]| + at + |ss| <= |Gather(area, cs)|
      && Gather(area', cs) == Splice(Gather(area, cs), |area[cs[0]]| + at, ss)
  {
    SpliceAfter(area[cs[0]], Gather(area, cs[1..]), at, ss);
  }

  /** Replacing slots of one cluster of a chain replaces them in the chain's contents. */
  lemma {:induction false} GatherSplice(area: seq<seq<Slot>>, cs: seq<nat>, width: nat, q: nat, off: nat, ss: seq<Slot>,
      area': seq<seq<Slot>>)
    requires NoDup(cs) && Wide(area, cs, width) && q < |cs| && off + |ss| <= width
    requires area' == area[cs[q] := Splice(area[cs[q]], off, ss)]
    ensures Pos(q, width) + off + |ss| <= |Gather(area, cs)|
      && Gather(area', cs) == Splice(Gather(area, cs), Pos(q, width) + off, ss)
    decreases |cs|
  {
    if q == 0 {
      GatherSpliceFirst(area, cs, off, ss, area');
    } else {
      var rest := cs[1..];
      assert NoDup(rest) && Wide(area, rest, width) && rest[q - 1] == cs[q] && cs[0] != cs[q];
      GatherSplice(area, rest, width, q - 1, off, ss, area');
      GatherSpliceRest(area, area', cs, Pos(q - 1, width) + off, ss);
    }
  }

  // ---------------------------------------------------------------- what a directory shows

  /** An entry as a reader of the volume sees it, with everything its chain holds. */
  datatype Item = Item(name: Name, alias: Name, short: seq<byte>, attr: byte, size: nat, content: Option<seq<Slot>>)

  function Content(d: Disk, first: nat, kind: Kind): (r: Option<seq<Slot>>) {
    match Chain(kind, d.fat, first) case Some(cs) => Some(Gather(d.area, cs)) case None => None
  }

  function ItemOf(d: Disk, r: Record, kind: Kind): (x: Item) {
    Item(r.name, r.alias, r.short, r.attr, r.size, Content(d, r.cluster, kind))
  }

  function ItemsOf(d: Disk, rs: seq<Record>, kind: Kind): (xs: seq<Item>)
    ensures |xs| == |rs|
  { seq(|rs|, i requires 0 <= i < |rs| => ItemOf(d, rs[i], kind)) }

  function Slots(d: Disk, ch: seq<nat>): (slots: seq<Slot>) { Gather(d.area, ch) }

  predicate IsDir(attr: byte) { attr / 16 % 2 == 1 }

  ghost predicate Disjoint(a: seq<nat>, b: seq<nat>) { forall c :: c in a ==> c !in b }

  /** A record names a chain of its own that is long enough for it. */
  ghost predicate SoundRecord(d: Disk, g: Geo, taken: set<nat>, r: Record) {
    var cs := Chain(g.kind, d.fat, r.cluster);
    cs.Some? && (forall c :: c in cs.value ==> c !in taken)
      && (!IsDir(r.attr) ==> r.size <= 32 * Pos(|cs.value|, g.per))
  }

  ghost predicate OwnChains(d: Disk, kind: Kind, r: Record, q: Record) {
    var cs, ds := Chain(kind, d.fat, r.cluster), Chain(kind, d.fat, q.cluster);
    cs.Some? && ds.Some? && Disjoint(cs.value, ds.value)
  }

  function Members(cs: seq<nat>): (s: set<nat>) { set c | c in cs }

  ghost predicate SoundRecords(d: Disk, g: Geo, taken: set<nat>, rs: seq<Record>) {
    Family(rs, r => SoundRecord(d, g, taken, r), (r, q) => OwnChains(d, g.kind, r, q))
  }

  ghost predicate Formatted(d: Disk, g: Geo) {
    && 16 <= g.per && g.per % 16 == 0 && |d.fat| == |d.area| >= 3
    && (forall c :: 2 <= c < |d.area| ==> |d.area[c]| == g.per)
    && |d.area[1]| == g.rootSlots
  }

  /** The driver loads directories up to a number of clusters. */
  predicate InLimit(g: Geo, dir: Dir, ch: seq<nat>) { dir.At? ==> |ch| <= g.dirLimit }

  /** The directory's chain and the clusters of others: in use, and apart. */
  ghost predicate SoundDir(d: Disk, g: Geo, dir: Dir, ch: seq<nat>, foreign: set<nat>) {
    && Formatted(d, g) && DirChain(g.kind, d.fat, dir) == Some(ch) && InLimit(g, dir, ch)
    && (forall c :: c in ch ==> c !in foreign) && (forall c :: c in foreign ==> 2 <= c < |d.fat| && d.fat[c] != 0)
  }

  /**
    Every entry of the directory names a well-formed chain, shared neither with
    another entry, nor with the directory, nor with anything else on the volume.
   */
  ghost predicate Sound(d: Disk, g: Geo, dir: Dir, ch: seq<nat>, foreign: set<nat>) {
    && SoundDir(d, g, dir, ch, foreign)
    && SoundRecords(d, g, Members(ch) + foreign, Records(Slots(d, ch), g.kind))
  }

  ghost function Items(d: Disk, g: Geo, ch: seq<nat>): (xs: seq<Item>)
  {
    ItemsOf(d, Records(Slots(d, ch), g.kind), g.kind)
  }

  // ---------------------------------------------------------------- writes that do not show

  /** The disks differ in the clusters `cs` only. */
  ghost predicate OffOnly(d: Disk, d': Disk, cs: set<nat>) {
    && |d'.fat| == |d.fat| && |d'.area| == |d.area|
    && (forall c :: 0 <= c < |d.fat| && c !in cs ==> d'.fat[c] == d.fat[c])
    && (forall c :: 0 <= c < |d.area| && c !in cs ==> d'.area[c] == d.area[c])
    && (forall c :: 0 <= c < |d.area| ==> |d'.area[c]| == |d.area[c]|)
  }

  lemma ContentKept(d: Disk, d': Disk, first: nat, cs: seq<nat>, off: set<nat>, kind: Kind)
    requires Chain(kind, d.fat, first) == Some(cs) && OffOnly(d, d', off) && forall c :: c in cs ==> c !in off
    ensures Chain(kind, d'.fat, first) == Some(cs) && Gather(d'.area, cs) == Gather(d.area, cs)
  {
    ChainKept(kind, d.fat, d'.fat, first, cs);
    GatherKept(d.area, d'.area, cs);
  }

  /** No record's chain uses a cluster of `off`. */
  ghost predicate Clear(d: Disk, kind: Kind, rs: seq<Record>, off: set<nat>) {
    forall i :: 0 <= i < |rs| ==> ClearRecord(d, kind, rs[i], off)
  }

  ghost predicate ClearRecord(d: Disk, kind: Kind, r: Record, off: set<nat>) {
    var cs := Chain(kind, d.fat, r.cluster);
    cs.Some? && forall c :: c in cs.value ==> c !in off
  }

  lemma RecordKept(d: Disk, d': Disk, g: Geo, taken: set<nat>, off: set<nat>, r: Record)
    requires OffOnly(d, d', off) && ClearRecord(d, g.kind, r, off)
    ensures Chain(g.kind, d'.fat, r.cluster) == Chain(g.kind, d.fat, r.cluster)
      && ItemOf(d', r, g.kind) == ItemOf(d, r, g.kind)
  {
    ContentKept(d, d', r.cluster, Chain(g.kind, d.fat, r.cluster).value, off, g.kind);
  }

  /** Records keep their items and their chains under writes off their chains. */
  lemma RecordsKept(d: Disk, d': Disk, g: Geo, taken: set<nat>, off: set<nat>, rs: seq<Record>)
    requires SoundRecords(d, g, taken, rs) && OffOnly(d, d', off) && Clear(d, g.kind, rs, off)
    ensures SoundRecords(d', g, taken, rs) && ItemsOf(d', rs, g.kind) == ItemsOf(d, rs, g.kind)
  {
    forall i | 0 <= i < |rs|
      ensures Chain(g.kind, d'.fat, rs[i].cluster) == Chain(g.kind, d.fat, rs[i].cluster)
        && ItemOf(d', rs[i], g.kind) == ItemOf(d, rs[i], g.kind)
    {
      assert ClearRecord(d, g.kind, rs[i], off);
      RecordKept(d, d', g, taken, off, rs[i]);
    }
    SameChains(d, d', g, taken, rs);
  }

  lemma SameChains(d: Disk, d': Disk, g: Geo, taken: set<nat>, rs: seq<Record>)
    requires SoundRecords(d, g, taken, rs) && forall i :: 0 <= i < |rs| ==>
      Chain(g.kind, d'.fat, rs[i].cluster) == Chain(g.kind, d.fat, rs[i].cluster)
    ensures SoundRecords(d', g, taken, rs)
  {
    forall i | 0 <= i < |rs| ensures SoundRecord(d', g, taken, rs[i]) { assert SoundRecord(d, g, taken, rs[i]); }
    forall i, j | 0 <= i < |rs| && 0 <= j < |rs| && i != j
      ensures OwnChains(d', g.kind, rs[i], rs[j])
    {
      assert OwnChains(d, g.kind, rs[i], rs[j]);
    }
  }

  /** Writes off the directory, its entries' chains and everything foreign do not show. */
  lemma Unseen(d: Disk, d': Disk, g: Geo, dir: Dir, ch: seq<nat>, foreign: set<nat>, off: set<nat>)
    requires Sound(d, g, dir, ch, foreign) && OffOnly(d, d', off)
    requires (forall c :: c in ch ==> c !in off) && (forall c :: c in foreign ==> c !in off)
      && Clear(d, g.kind, Records(Slots(d, ch), g.kind), off)
    ensures Sound(d', g, dir, ch, foreign) && Slots(d', ch) == Slots(d, ch) && Items(d', g, ch) == Items(d, g, ch)
  {
    DirChainKept(g.kind, d.fat, d'.fat, dir, ch);
    GatherKept(d.area, d'.area, ch);
    RecordsKept(d, d', g, Members(ch) + foreign, off, Records(Slots(d, ch), g.kind));
  }

  ghost predicate AllFreeClusters(fat: seq<nat>, off: set<nat>)
  {
    forall c :: c in off ==> 2 <= c < |fat| && fat[c] == 0
  }

  lemma ChainUsed(kind: Kind, fat: seq<nat>, first: nat, cs: seq<nat>, c: nat)
    requires Chain(kind, fat, first) == Some(cs) && c in cs
    ensures 2 <= c < |fat| && fat[c] != 0
  {
    FollowLinked(kind, fat, first, |fat|);
    var i :| 0 <= i < |cs| && cs[i] == c;
    if i < |cs| - 1 { assert 2 <= cs[i + 1]; }
  }

  lemma DirChainUsed(kind: Kind, fat: seq<nat>, dir: Dir, ch: seq<nat>, c: nat)
    requires DirChain(kind, fat, dir) == Some(ch) && c in ch
    ensures c == 1 || (2 <= c < |fat| && fat[c] != 0)
  {
    if dir.At? {
      assert dir.cluster != 0 ==> Chain(kind, fat, dir.cluster) == Some(ch);
      ChainUsed(kind, fat, dir.cluster, ch, c);
    }
  }

  /** Free clusters are in no chain. */
  lemma FreeIsClear(d: Disk, g: Geo, dir: Dir, ch: seq<nat>, foreign: set<nat>, off: set<nat>, rs: seq<Record>,
      taken: set<nat>)
    requires SoundDir(d, g, dir, ch, foreign) && AllFreeClusters(d.fat, off) && SoundRecords(d, g, taken, rs)
    ensures (forall c :: c in ch ==> c !in off) && (forall c :: c in foreign ==> c !in off) && Clear(d, g.kind, rs, off)
  {
    forall c | c in ch ensures c !in off { DirChainUsed(g.kind, d.fat, dir, ch, c); }
    forall i | 0 <= i < |rs| ensures ClearRecord(d, g.kind, rs[i], off) {
      assert SoundRecord(d, g, taken, rs[i]);
      var cs := Chain(g.kind, d.fat, rs[i].cluster).value;
      forall c | c in cs ensures c !in off { ChainUsed(g.kind, d.fat, rs[i].cluster, cs, c); }
    }
  }

  /** Writes to free clusters do not show. */
  lemma UnseenFree(d: Disk, d': Disk, g: Geo, dir: Dir, ch: seq<nat>, foreign: set<nat>, off: set<nat>)
    requires Sound(d, g, dir, ch, foreign) && OffOnly(d, d', off) && AllFreeClusters(d.fat, off)
    ensures Sound(d', g, dir, ch, foreign) && Slots(d', ch) == Slots(d, ch) && Items(d', g, ch) == Items(d, g, ch)
  {
    FreeIsClear(d, g, dir, ch, foreign, off, Records(Slots(d, ch), g.kind), Members(ch) + foreign);
    Unseen(d, d', g, dir, ch, foreign, off);
  }

  lemma SoundLess(d: Disk, g: Geo, dir: Dir, ch: seq<nat>, foreign: set<nat>, less: set<nat>)
    requires Sound(d, g, dir, ch, foreign) && less <= foreign
    ensures Sound(d, g, dir, ch, less)
  {
    var rs, taken := Records(Slots(d, ch), g.kind), Members(ch) + foreign;
    assert Members(ch) + less <= taken;
    TakenLess(d, g, taken, Members(ch) + less, rs);
  }

  lemma TakenLess(d: Disk, g: Geo, taken: set<nat>, less: set<nat>, rs: seq<Record>)
    requires SoundRecords(d, g, taken, rs) && less <= taken
    ensures SoundRecords(d, g, less, rs)
  {
    forall i | 0 <= i < |rs| ensures SoundRecord(d, g, less, rs[i]) { assert SoundRecord(d, g, taken, rs[i]); }
    forall i, j | 0 <= i < |rs| && 0 <= j < |rs| && i != j ensures OwnChains(d, g.kind, rs[i], rs[j]) { }
  }

  // ---------------------------------------------------------------- writes to the directory

  /** A write to the directory's own clusters: the records of its new slots, with the chains and contents they had. */
  lemma DirWrite(d: Disk, d': Disk, g: Geo, dir: Dir, ch: seq<nat>, foreign: set<nat>, rs: seq<Record>)
    requires SoundDir(d, g, dir, ch, foreign) && OffOnly(d, d', Members(ch)) && d'.fat == d.fat
    requires rs == Records(Slots(d', ch), g.kind) && SoundRecords(d, g, Members(ch) + foreign, rs)
    ensures Sound(d', g, dir, ch, foreign) && Items(d', g, ch) == ItemsOf(d, rs, g.kind)
  {
    var taken := Members(ch) + foreign;
    forall i | 0 <= i < |rs|
      ensures ClearRecord(d, g.kind, rs[i], Members(ch))
    {
      assert SoundRecord(d, g, taken, rs[i]);
    }
    RecordsKept(d, d', g, taken, Members(ch), rs);
  }

  lemma GrownChain(kind: Kind, fat: seq<nat>, fat': seq<nat>, cs: seq<nat>, next: nat)
    requires Linked(kind, fat, cs) && next !in cs && 2 <= next < |fat| == |fat'|
    requires fat'[cs[|cs| - 1]] == next && IsEof(kind, fat'[next]) && !IsEof(kind, next)
    requires forall c :: 0 <= c < |fat| && c != cs[|cs| - 1] && c != next ==> fat'[c] == fat[c]
    ensures Linked(kind, fat', cs + [next])
  {
    forall i | 0 <= i < |cs| - 1 ensures fat'[cs[i]] == fat[cs[i]] {
      LinkedDistinct(kind, fat, cs, i, |cs| - 1);
      assert cs[i] in cs;
    }
  }

  /** The disk after the directory's last cluster has been linked to a new one. */
  ghost predicate Extended(d: Disk, d': Disk, kind: Kind, last: nat, next: nat) {
    && last < |d.fat| && 2 <= next < |d.fat| && |d.fat| == |d.area| && last != next
    && d.fat[next] == 0 && OffOnly(d, d', {last, next})
    && d'.fat[last] == next && IsEof(kind, d'.fat[next]) && !IsEof(kind, next) && d'.area[last] == d.area[last]
    && forall i :: 0 <= i < |d'.area[next]| ==> d'.area[next][i][0] == 0
  }

  lemma GrownDirChain(kind: Kind, fat: seq<nat>, fat': seq<nat>, dir: Dir, ch: seq<nat>, last: nat, next: nat)
    requires dir.At? && DirChain(kind, fat, dir) == Some(ch) && ch != [] && last == ch[|ch| - 1]
      && 2 <= next < |fat| == |fat'| && fat[next] == 0
    requires last < |fat| && fat'[last] == next && IsEof(kind, fat'[next]) && !IsEof(kind, next)
    requires forall c :: 0 <= c < |fat| && c != last && c != next ==> fat'[c] == fat[c]
    ensures DirChain(kind, fat', dir) == Some(ch + [next]) && next !in ch
  {
    assert next !in ch by {
      if next in ch { DirChainUsed(kind, fat, dir, ch, next); }
    }
    FollowLinked(kind, fat, dir.cluster, |fat|);
    GrownChain(kind, fat, fat', ch, next);
    LinkedChain(kind, fat', ch + [next]);
  }

  /** A directory grown by a cluster. */
  lemma GrownDir(d: Disk, d': Disk, g: Geo, dir: Dir, ch: seq<nat>, last: nat, next: nat)
    requires dir.At? && DirChain(g.kind, d.fat, dir) == Some(ch) && ch != [] && last == ch[|ch| - 1]
      && Extended(d, d', g.kind, last, next)
    ensures DirChain(g.kind, d'.fat, dir) == Some(ch + [next])
    ensures Gather(d'.area, ch + [next]) == Gather(d.area, ch) + d'.area[next]
  {
    GrownDirChain(g.kind, d.fat, d'.fat, dir, ch, last, next);
    GatherKept(d.area, d'.area, ch);
    GatherConcat(d'.area, ch, [next]);
    GatherOne(d'.area, next);
  }

  lemma GatherOne(area: seq<seq<Slot>>, c: nat)
    requires c < |area|
    ensures Gather(area, [c]) == area[c]
  {
    assert Gather(area, [c][1..]) == [] && area[c] + [] == area[c];
  }

  /** Growing the directory does not show. */
  lemma GrowUnseen(d: Disk, d': Disk, g: Geo, dir: Dir, ch: seq<nat>, foreign: set<nat>, last: nat, next: nat)
    requires Sound(d, g, dir, ch, foreign) && dir.At? && ch != [] && last == ch[|ch| - 1]
      && Extended(d, d', g.kind, last, next) && |ch| < g.dirLimit
    ensures Sound(d', g, dir, ch + [next], foreign) && Slots(d', ch + [next]) == Slots(d, ch) + d'.area[next]
    ensures Records(Slots(d', ch + [next]), g.kind) == Records(Slots(d, ch), g.kind)
      && Items(d', g, ch + [next]) == Items(d, g, ch)
  {
    var rs, taken, off := Records(Slots(d, ch), g.kind), Members(ch) + foreign, {last, next};
    GrownDir(d, d', g, dir, ch, last, next);
    GrownRecords(Slots(d, ch), d'.area[next], g.kind);
    GrowClear(d, g, taken, rs, last, next);
    RecordsKept(d, d', g, taken + {next}, off, rs);
    assert Members(ch + [next]) + foreign == taken + {next};
    assert SoundDir(d', g, dir, ch + [next], foreign) by {
      assert forall c :: c in foreign ==> c != last && c != next;
    }
  }

  lemma GrowClear(d: Disk, g: Geo, taken: set<nat>, rs: seq<Record>, last: nat, next: nat)
    requires SoundRecords(d, g, taken, rs) && last in taken && next < |d.fat| && d.fat[next] == 0
    ensures Clear(d, g.kind, rs, {last, next}) && SoundRecords(d, g, taken + {next}, rs)
  {
    forall i | 0 <= i < |rs|
      ensures ClearRecord(d, g.kind, rs[i], {last, next}) && SoundRecord(d, g, taken + {next}, rs[i])
    {
      assert SoundRecord(d, g, taken, rs[i]);
      var cs := Chain(g.kind, d.fat, rs[i].cluster).value;
      forall c | c in cs ensures c != next { ChainUsed(g.kind, d.fat, rs[i].cluster, cs, c); }
    }
    forall i, j | 0 <= i < |rs| && 0 <= j < |rs| && i != j ensures OwnChains(d, g.kind, rs[i], rs[j]) { }
  }

  function ZeroSlots(n: nat): (slots: seq<Slot>)
    ensures |slots| == n && forall i :: 0 <= i < n ==> slots[i][0] == 0
  { Pack([], 0, n) }

  lemma GrownRecords(slots: seq<Slot>, more: seq<Slot>, kind: Kind)
    requires more != [] && forall i :: 0 <= i < |more| ==> more[i][0] == 0
    ensures End(slots + more) == End(slots) && Records(slots + more, kind) == Records(slots, kind)
    ensures Tidy(slots, kind) ==> Tidy(slots + more, kind)
  {
    EndIs(slots + more, End(slots));
    assert (slots + more)[..End(slots)] == slots[..End(slots)];
  }

  // ---------------------------------------------------------------- entries added, replaced and removed

  /** Chain `cs` belongs to no record: it is among the clusters the records avoid. */
  lemma AddedSound(d: Disk, g: Geo, taken: set<nat>, cs: seq<nat>, rs: seq<Record>, w: Record)
    requires SoundRecords(d, g, taken + Members(cs), rs) && SoundRecord(d, g, taken, w)
      && Chain(g.kind, d.fat, w.cluster) == Some(cs)
    ensures SoundRecords(d, g, taken, rs) && forall i :: 0 <= i < |rs| ==>
      OwnChains(d, g.kind, rs[i], w) && OwnChains(d, g.kind, w, rs[i])
  {
    TakenLess(d, g, taken + Members(cs), taken, rs);
    forall i | 0 <= i < |rs| ensures OwnChains(d, g.kind, rs[i], w) && OwnChains(d, g.kind, w, rs[i]) {
      assert SoundRecord(d, g, taken + Members(cs), rs[i]);
    }
  }

  lemma PublishSound(d: Disk, g: Geo, taken: set<nat>, cs: seq<nat>, rs: seq<Record>, p: seq<Record>, q: seq<Record>,
      w: Record)
    requires SoundRecords(d, g, taken + Members(cs), rs) && SoundRecord(d, g, taken, w)
      && Chain(g.kind, d.fat, w.cluster) == Some(cs) && rs == p + q
    ensures SoundRecords(d, g, taken, p + [w] + q)
  {
    AddedSound(d, g, taken, cs, rs, w);
    FamilyInsert(rs, p, q, w, p + [w] + q, r => SoundRecord(d, g, taken, r), (r, q) => OwnChains(d, g.kind, r, q));
  }

  lemma ReplaceSound(d: Disk, g: Geo, taken: set<nat>, cs: seq<nat>, rs: seq<Record>, k: nat, w: Record)
    requires SoundRecords(d, g, taken + Members(cs), rs) && SoundRecord(d, g, taken, w)
      && Chain(g.kind, d.fat, w.cluster) == Some(cs) && k < |rs|
    ensures SoundRecords(d, g, taken, rs[k := w])
  {
    AddedSound(d, g, taken, cs, rs, w);
    FamilyReplace(rs, k, w, r => SoundRecord(d, g, taken, r), (r, q) => OwnChains(d, g.kind, r, q));
  }

  lemma RenamedSound(d: Disk, g: Geo, taken: set<nat>, rs: seq<Record>, k: nat, w: Record)
    requires SoundRecords(d, g, taken, rs) && k < |rs| && w.cluster == rs[k].cluster && w.attr == rs[k].attr
      && w.size == rs[k].size
    ensures SoundRecords(d, g, taken, rs[k := w])
  {
    assert SoundRecord(d, g, taken, rs[k]);
    forall i | 0 <= i < |rs| && i != k ensures OwnChains(d, g.kind, rs[i], w) && OwnChains(d, g.kind, w, rs[i]) {
      assert OwnChains(d, g.kind, rs[i], rs[k]) && OwnChains(d, g.kind, rs[k], rs[i]);
    }
    FamilyReplace(rs, k, w, r => SoundRecord(d, g, taken, r), (r, q) => OwnChains(d, g.kind, r, q));
  }

  lemma RemovedSound(d: Disk, g: Geo, taken: set<nat>, rs: seq<Record>, k: nat)
    requires SoundRecords(d, g, taken, rs) && k < |rs|
    ensures SoundRecords(d, g, taken, rs[..k] + rs[k + 1..])
  {
    FamilyRemove(rs, k, r => SoundRecord(d, g, taken, r), (r, q) => OwnChains(d, g.kind, r, q));
  }

  /** The chain of a record is off every other record. */
  lemma OthersClear(d: Disk, g: Geo, taken: set<nat>, rs: seq<Record>, k: nat, i: nat)
    requires SoundRecords(d, g, taken, rs) && k < |rs| && i < |rs| && i != k
    ensures Chain(g.kind, d.fat, rs[k].cluster).Some?
      && ClearRecord(d, g.kind, rs[i], Members(Chain(g.kind, d.fat, rs[k].cluster).value))
  {
    assert OwnChains(d, g.kind, rs[i], rs[k]);
  }

  lemma ItemsJoin(d: Disk, p: seq<Record>, w: Record, q: seq<Record>, kind: Kind)
    ensures ItemsOf(d, p + [w] + q, kind) == ItemsOf(d, p, kind) + [ItemOf(d, w, kind)] + ItemsOf(d, q, kind)
    ensures ItemsOf(d, p + q, kind) == ItemsOf(d, p, kind) + ItemsOf(d, q, kind)
  {}

  /** The disk is sound and the directory shows exactly the items `xs`. */
  ghost predicate Showing(d: Disk, g: Geo, dir: Dir, foreign: set<nat>, xs: seq<Item>) {
    var ch := DirChain(g.kind, d.fat, dir);
    ch.Some? && Sound(d, g, dir, ch.value, foreign) && Items(d, g, ch.value) == xs
  }

  // ---------------------------------------------------------------- file data

  /** Slot `j` of a file's data, padded with zeros. */
  function Piece(data: seq<byte>, j: nat): (s: Slot) {
    seq(32, k requires 0 <= k < 32 => if 32 * j + k < |data| then data[32 * j + k] else 0)
  }

  function Pack(data: seq<byte>, from: nat, n: nat): (slots: seq<Slot>)
    ensures |slots| == n
  { seq<Slot>(n, j requires 0 <= j < n => Piece(data, from + j)) }

  /** The first `size` bytes of a chain's contents. */
  function Bytes(slots: seq<Slot>, size: nat): (b: seq<byte>)
    requires size <= 32 * |slots|
    ensures |b| == size
  { seq(size, k requires 0 <= k < size => slots[k / 32][k % 32]) }

  /** What is packed reads back. */
  lemma ReadBack(data: seq<byte>, n: nat)
    requires |data| <= 32 * n
    ensures Bytes(Pack(data, 0, n), |data|) == data
  {
    forall k | 0 <= k < |data| ensures Bytes(Pack(data, 0, n), |data|)[k] == data[k] {
      DivMod(k, 32, k / 32, k % 32);
    }
  }

  lemma PackConcat(data: seq<byte>, from: nat, a: nat, b: nat)
    ensures Pack(data, from, a) + Pack(data, from + a, b) == Pack(data, from, a + b)
  {}

  /** Clusters that each hold their part of the data. */
  ghost predicate Packed(area: seq<seq<Slot>>, cs: seq<nat>, per: nat, data: seq<byte>, from: nat) {
    forall i :: 0 <= i < |cs| ==> cs[i] < |area| && area[cs[i]] == Pack(data, from + Pos(i, per), per)
  }

  lemma PackedRest(area: seq<seq<Slot>>, cs: seq<nat>, per: nat, data: seq<byte>, from: nat)
    requires Packed(area, cs, per, data, from) && cs != []
    ensures cs[0] < |area| && area[cs[0]] == Pack(data, from, per) && Packed(area, cs[1..], per, data, from + per)
  {
    assert area[cs[0]] == Pack(data, from + Pos(0, per), per);
    forall i | 0 <= i < |cs| - 1
      ensures cs[1..][i] < |area| && area[cs[1..][i]] == Pack(data, from + per + Pos(i, per), per)
    {
      assert cs[1..][i] == cs[i + 1] && Pos(i + 1, per) == per + Pos(i, per);
    }
  }

  lemma {:induction false} GatherPack(area: seq<seq<Slot>>, cs: seq<nat>, per: nat, data: seq<byte>, from: nat)
    requires Packed(area, cs, per, data, from)
    ensures Gather(area, cs) == Pack(data, from, Pos(|cs|, per))
    decreases |cs|
  {
    if cs != [] {
      assert Gather(area, cs[1..]) == Pack(data, from + per, Pos(|cs| - 1, per))
        && Gather(area, cs) == Pack(data, from, per) + Gather(area, cs[1..]) by {
        PackedRest(area, cs, per, data, from);
        GatherPack(area, cs[1..], per, data, from + per);
      }
      PackConcat(data, from, per, Pos(|cs| - 1, per));
    }
  }
}

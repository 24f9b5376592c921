/**
  The FAT driver's volume (src/fs/fat.rs, Volume): its methods work on a cached
  table, write one entry or one sector at a time, and stop for good at the first
  write the device refuses. `trace` keeps every state the disk has been in, so
  that a method can promise what a reader finds if power fails at any moment.
 */
module FatDriver {
  import opened Base
  import opened FatTable
  import opened FatNames
  import opened FatReader
  import opened FatDirectory
  import opened FatShort
  import opened FatVolume
  import opened FatTrace
  import opened FatCrash
  import opened FatReading

  // ---------------------------------------------------------------- why an operation may be refused

  ghost predicate Named(rs: seq<Record>, name: Name) { exists i :: 0 <= i < |rs| && Matches(rs[i], name) }

  /** The data is too large for a file or for the free clusters. */
  ghost predicate NoFit(fat: seq<nat>, g: Geo, size: nat) { size > MAX_FILE || 32 * Pos(|Zeros(fat)|, g.per) < size }

  /** The directory has no run of `n` free slots and cannot grow. */
  ghost predicate Cramped(d: Disk, g: Geo, dir: Dir, n: nat) {
    match DirChain(g.kind, d.fat, dir)
    case None => false
    case Some(ch) =>
      && NoRun(Slots(d, ch), n)
      && (dir.FixedRoot? || 32 * (|Slots(d, ch)| + g.per) > MAX_METADATA || Zeros(d.fat) == {})
  }

  /** Some entry set of a name does not fit. */
  ghost predicate Crowded(d: Disk, g: Geo, dir: Dir) { exists n: nat :: 1 <= n <= 21 && Cramped(d, g, dir, n) }

  /** The directory was crowded in state `at` of the operation that began with trace `start`. */
  ghost predicate CrowdedAt(start: seq<Disk>, trace: seq<Disk>, at: nat, g: Geo, dir: Dir)
  {
    |start| <= at + 1 <= |trace| && Crowded(trace[at], g, dir)
  }

  lemma CrowdedNow(start: seq<Disk>, trace: seq<Disk>, d: Disk, g: Geo, dir: Dir)
    requires |start| <= |trace| && trace != [] && trace[|trace| - 1] == d
    ensures Crowded(d, g, dir) ==> CrowdedAt(start, trace, |trace| - 1, g, dir)
  {}

  lemma CrowdedLater(start: seq<Disk>, mid: seq<Disk>, trace: seq<Disk>, at: nat, g: Geo, dir: Dir)
    requires |mid| <= |trace| && trace[..|mid|] == mid && |start| <= |mid|
    ensures CrowdedAt(start, mid, at, g, dir) ==> CrowdedAt(start, trace, at, g, dir)
    ensures CrowdedAt(mid, trace, at, g, dir) ==> CrowdedAt(start, trace, at, g, dir)
  {
    if CrowdedAt(start, mid, at, g, dir) { assert trace[..|mid|][at] == mid[at]; }
  }

  /** Nothing about the name or the directory's size stands in the way of a new entry. */
  ghost predicate Addable(d: Disk, g: Geo, dir: Dir, ch: seq<nat>, name: Name)
  {
    ValidName(name) && Loads(d, g, dir) && !Named(Records(Slots(d, ch), g.kind), name)
  }

  lemma AddableSame(d: Disk, t: Disk, g: Geo, dir: Dir, ch: seq<nat>, foreign: set<nat>, name: Name)
    requires SameListing(d, t, g, dir, ch, ch, foreign)
      && DirChain(g.kind, d.fat, dir) == Some(ch) == DirChain(g.kind, t.fat, dir)
    ensures Addable(d, g, dir, ch, name) ==> Addable(t, g, dir, ch, name)
    ensures Unchanged(d, t, g, dir, ch, foreign)
  {}

  /** The directory, if the driver can load it at all, is the one with chain `ch`, and well kept. */
  ghost predicate LoadsKept(d: Disk, g: Geo, dir: Dir, ch: seq<nat>, foreign: set<nat>)
  {
    Loads(d, g, dir) ==> WellKept(d, g, dir, ch, foreign)
  }

  /**
    How adding an entry to a directory ends: the foreign clusters are kept; every
    state since `start` shows the old items or `ys`, or is half grown; a success shows
    `ys`, a refusal by a working device shows the old items, and both are well kept.
   */
  ghost predicate Outcome(d: Disk, start: seq<Disk>, t: Disk, trace: seq<Disk>, g: Geo, dir: Dir, ch: seq<nat>,
      foreign: set<nat>, ys: seq<Item>, ok: bool, failed: bool) {
    && KeptOn(d, t, foreign)
    && TraceAdding(start, trace, g, dir, foreign, Items(d, g, ch), ys, Breakable(g, d.fat, dir, ch))
    && (ok ==> !failed && Shown(t, g, dir, foreign, ys)) && (!ok && !failed ==> Unchanged(d, t, g, dir, ch, foreign))
  }

  /** The directory shows `ys` and is well kept. */
  ghost predicate Shown(t: Disk, g: Geo, dir: Dir, foreign: set<nat>, ys: seq<Item>) {
    DirChain(g.kind, t.fat, dir).Some? && WellKept(t, g, dir, DirChain(g.kind, t.fat, dir).value, foreign)
      && Showing(t, g, dir, foreign, ys)
  }

  /** The addition of an entry whose chain was written first. */
  lemma StagedThen(d: Disk, start: seq<Disk>, t: Disk, mid: seq<Disk>, u: Disk, trace: seq<Disk>, g: Geo, dir: Dir,
      ch: seq<nat>, foreign: set<nat>, ys: seq<Item>, ok: bool, failed: bool)
    requires SameListing(d, t, g, dir, ch, ch, foreign) && TraceShow(start, mid, g, dir, foreign, Items(d, g, ch))
      && FewerFree(d.fat, t.fat)
    requires Outcome(t, mid, u, trace, g, dir, ch, foreign, ys, ok, failed)
    ensures Outcome(d, start, u, trace, g, dir, ch, foreign, ys, ok, failed)
  {
    BreakableLess(g, d.fat, t.fat, dir, ch);
    TraceAddingJoin(start, mid, trace, g, dir, foreign, Items(d, g, ch), ys, Breakable(g, t.fat, dir, ch),
      Breakable(g, d.fat, dir, ch));
    KeptTrans(d, t, u, foreign);
    if !ok && !failed { SameListingTrans(d, t, u, g, dir, ch, ch, DirChain(g.kind, u.fat, dir).value, foreign); }
  }

  lemma StagedAdd(d: Disk, start: seq<Disk>, t: Disk, mid: seq<Disk>, u: Disk, trace: seq<Disk>, g: Geo, dir: Dir,
      ch: seq<nat>, foreign: set<nat>, ys: seq<Item>, ok: bool, failed: bool, name: Name, at: nat)
    requires SameListing(d, t, g, dir, ch, ch, foreign) && TraceShow(start, mid, g, dir, foreign, Items(d, g, ch))
      && FewerFree(d.fat, t.fat)
    requires DirChain(g.kind, d.fat, dir) == Some(ch) == DirChain(g.kind, t.fat, dir)
    requires Outcome(t, mid, u, trace, g, dir, ch, foreign, ys, ok, failed)
    requires !ok && !failed && Addable(t, g, dir, ch, name) ==> CrowdedAt(mid, trace, at, g, dir)
    ensures Outcome(d, start, u, trace, g, dir, ch, foreign, ys, ok, failed)
    ensures !ok && !failed && Addable(d, g, dir, ch, name) ==> CrowdedAt(start, trace, at, g, dir)
  {
    AddableSame(d, t, g, dir, ch, foreign, name);
    CrowdedLater(start, mid, trace, at, g, dir);
    StagedThen(d, start, t, mid, u, trace, g, dir, ch, foreign, ys, ok, failed);
  }

  /** Writing a chain that could not be completed leaves what was there. */
  lemma StagedNot(d: Disk, start: seq<Disk>, t: Disk, trace: seq<Disk>, g: Geo, dir: Dir, ch: seq<nat>,
      foreign: set<nat>, failed: bool)
    requires WellKept(d, g, dir, ch, foreign) && KeptOn(d, t, foreign)
      && TraceShow(start, trace, g, dir, foreign, Items(d, g, ch)) && (!failed ==> t == d)
    ensures Outcome(d, start, t, trace, g, dir, ch, foreign, Items(d, g, ch), false, failed)
  {
    ShowAdding(start, trace, g, dir, foreign, Items(d, g, ch), Breakable(g, d.fat, dir, ch));
  }

  /** Apart from the directory's chain, which may have grown, the table is as it was. */
  ghost predicate NoneLost(d: Disk, t: Disk, g: Geo, dir: Dir) {
    DirChain(g.kind, t.fat, dir).Some? && FatOnly(d.fat, t.fat, Members(DirChain(g.kind, t.fat, dir).value))
  }

  /** The entry's clusters `cs` apart, too. */
  ghost predicate NoneLostBut(d: Disk, t: Disk, g: Geo, dir: Dir, cs: seq<nat>) {
    && DirChain(g.kind, t.fat, dir).Some?
    && FatOnly(d.fat, t.fat, Members(DirChain(g.kind, t.fat, dir).value) + Members(cs))
  }

  /** The chain `cs` has been freed, and nothing else of the table has changed. */
  ghost predicate Given(fat: seq<nat>, fat': seq<nat>, cs: seq<nat>)
  {
    FatOnly(fat, fat', Members(cs)) && Freed(fat', cs)
  }

  /** No cluster is lost: the table has changed only in the directory's chain and in that of the entry made. */
  ghost predicate Spent(d: Disk, t: Disk, g: Geo, dir: Dir, name: Name, attr: byte, size: nat) {
    exists first: nat, cs :: SpentOn(d, t, g, dir, name, attr, size, first, cs)
  }

  ghost predicate SpentOn(d: Disk, t: Disk, g: Geo, dir: Dir, name: Name, attr: byte, size: nat, first: nat,
      cs: seq<nat>) {
    && Entered(t, g, dir, name, attr, first, size) && Chain(g.kind, t.fat, first) == Some(cs)
    && NoneLostBut(d, t, g, dir, cs)
  }

  /** Record `k` has exchanged its chain: the old one is free, and but for the two the table is as it was. */
  ghost predicate Exchanged(d: Disk, t: Disk, g: Geo, ch: seq<nat>, k: nat) {
    exists was, cs :: ExchangedFor(d, t, g, ch, k, was, cs)
  }

  ghost predicate ExchangedFor(d: Disk, t: Disk, g: Geo, ch: seq<nat>, k: nat, was: seq<nat>, cs: seq<nat>) {
    && k < |Records(Slots(d, ch), g.kind)| && k < |Records(Slots(t, ch), g.kind)|
    && Chain(g.kind, d.fat, Records(Slots(d, ch), g.kind)[k].cluster) == Some(was)
    && Chain(g.kind, t.fat, Records(Slots(t, ch), g.kind)[k].cluster) == Some(cs)
    && Freed(t.fat, was) && FatOnly(d.fat, t.fat, Members(was) + Members(cs))
  }

  lemma RecordChain(d: Disk, g: Geo, dir: Dir, ch: seq<nat>, foreign: set<nat>, k: nat)
    requires Sound(d, g, dir, ch, foreign) && k < |Records(Slots(d, ch), g.kind)|
    ensures Chain(g.kind, d.fat, Records(Slots(d, ch), g.kind)[k].cluster).Some?
  {
    assert SoundRecord(d, g, Members(ch) + foreign, Records(Slots(d, ch), g.kind)[k]);
  }

  /** A chain in use when the clusters `cs` were taken is still the same. */
  lemma UsedKept(d: Disk, t: Disk, g: Geo, first: nat, was: seq<nat>, cs: seq<nat>)
    requires Chain(g.kind, d.fat, first) == Some(was) && FatOnly(d.fat, t.fat, Members(cs))
      && AllFreeClusters(d.fat, Members(cs))
    ensures Chain(g.kind, t.fat, first) == Some(was) && Members(was) !! Members(cs)
  {
    forall c | c in was ensures c !in Members(cs) { ChainUsed(g.kind, d.fat, first, was, c); }
    ChainKept(g.kind, d.fat, t.fat, first, was);
  }

  lemma ChainStays(d: Disk, t: Disk, g: Geo, dir: Dir, ch: seq<nat>, foreign: set<nat>, k: nat, r: Record,
      cs: seq<nat>) returns (was: seq<nat>)
    requires WellKept(d, g, dir, ch, foreign) && k < |Records(Slots(d, ch), g.kind)|
      && Records(Slots(d, ch), g.kind)[k] == r
    requires FatOnly(d.fat, t.fat, Members(cs)) && AllFreeClusters(d.fat, Members(cs))
    ensures Chain(g.kind, d.fat, r.cluster) == Some(was) == Chain(g.kind, t.fat, r.cluster)
      && Members(was) !! Members(cs)
  {
    RecordChain(d, g, dir, ch, foreign, k);
    was := Chain(g.kind, d.fat, r.cluster).value;
    UsedKept(d, t, g, r.cluster, was, cs);
  }

  lemma ChainsExchanged(d: Disk, t: Disk, u: Disk, g: Geo, ch: seq<nat>, k: nat, r: Record, first: nat, cs: seq<nat>,
      was: seq<nat>)
    requires k < |Records(Slots(d, ch), g.kind)| && Records(Slots(d, ch), g.kind)[k] == r
    requires Chain(g.kind, d.fat, r.cluster) == Some(was) && Chain(g.kind, t.fat, first) == Some(cs)
    requires FatOnly(d.fat, t.fat, Members(cs)) && Given(t.fat, u.fat, was) && Members(was) !! Members(cs)
    requires EntryIs(u, g, ch, k, first)
    ensures Exchanged(d, u, g, ch, k)
  {
    FatOnlyThen(d.fat, t.fat, u.fat, Members(cs), Members(was), Members(was) + Members(cs));
    forall c | c in cs && c < |t.fat| ensures u.fat[c] == t.fat[c] { assert c in Members(cs); }
    ChainKept(g.kind, t.fat, u.fat, first, cs);
    assert ExchangedFor(d, u, g, ch, k, was, cs);
  }

  /** How an insertion ends that is not refused. */
  lemma Inserted(d: Disk, start: seq<Disk>, t: Disk, trace: seq<Disk>, g: Geo, dir: Dir, ch: seq<nat>,
      foreign: set<nat>, own: set<nat>, ys: seq<Item>, ok: bool, failed: bool)
    requires KeptOn(d, t, foreign + own) && (ok || failed)
      && TraceAdding(start, trace, g, dir, foreign, Items(d, g, ch), ys, Breakable(g, d.fat, dir, ch))
    requires ok ==> !failed && Shown(t, g, dir, foreign, ys)
    ensures Outcome(d, start, t, trace, g, dir, ch, foreign, ys, ok, failed)
  {
    KeptLess(d, t, foreign + own, foreign);
  }

  /** A chain taken from free clusters and given back: nothing but the directory's chain has changed. */
  lemma TakenBack(d: Disk, t: Disk, u: Disk, g: Geo, dir: Dir, cs: seq<nat>)
    requires FatOnly(d.fat, t.fat, Members(cs)) && AllFreeClusters(d.fat, Members(cs))
    requires NoneLostBut(t, u, g, dir, cs) && Freed(u.fat, cs)
    ensures NoneLost(d, u, g, dir)
  {
    forall c | 0 <= c < |d.fat| && c !in Members(DirChain(g.kind, u.fat, dir).value) ensures u.fat[c] == d.fat[c] {
      if c in Members(cs) {
        var i :| 0 <= i < |cs| && cs[i] == c;
      }
    }
  }

  /** A chain taken from free clusters and published. */
  lemma TakenFor(d: Disk, t: Disk, u: Disk, g: Geo, dir: Dir, name: Name, attr: byte, size: nat, first: nat,
      cs: seq<nat>, own: set<nat>)
    requires FatOnly(d.fat, t.fat, Members(cs)) && Chain(g.kind, t.fat, first) == Some(cs)
    requires KeptOn(t, u, own) && (forall i :: 0 <= i < |cs| ==> cs[i] in own)
    requires NoneLost(t, u, g, dir) && Entered(u, g, dir, name, attr, first, size)
    ensures Spent(d, u, g, dir, name, attr, size)
  {
    KeptChain(t, u, own, first, cs, g.kind);
    var ch := Members(DirChain(g.kind, u.fat, dir).value);
    FatOnlyThen(d.fat, t.fat, u.fat, Members(cs), ch, ch + Members(cs));
    assert SpentOn(d, u, g, dir, name, attr, size, first, cs);
  }

  lemma StillThere(d: Disk, g: Geo, dir: Dir, ch: seq<nat>, foreign: set<nat>)
    requires WellKept(d, g, dir, ch, foreign)
    ensures NoneLost(d, d, g, dir)
  {}

  /** The two together: a chain taken from free clusters, and published or given back. */
  lemma TakenOr(d: Disk, t: Disk, u: Disk, g: Geo, dir: Dir, name: Name, attr: byte, size: nat, first: nat,
      cs: seq<nat>, own: set<nat>, ok: bool, failed: bool)
    requires FatOnly(d.fat, t.fat, Members(cs)) && AllFreeClusters(d.fat, Members(cs))
    requires Chain(g.kind, t.fat, first) == Some(cs) && (forall i :: 0 <= i < |cs| ==> cs[i] in own)
    requires ok ==> KeptOn(t, u, own) && NoneLost(t, u, g, dir) && Entered(u, g, dir, name, attr, first, size)
    requires !ok && !failed ==> NoneLostBut(t, u, g, dir, cs) && Freed(u.fat, cs)
    ensures ok ==> Spent(d, u, g, dir, name, attr, size)
    ensures !ok && !failed ==> NoneLost(d, u, g, dir)
  {
    if ok {
      TakenFor(d, t, u, g, dir, name, attr, size, first, cs, own);
    } else if !failed {
      TakenBack(d, t, u, g, dir, cs);
    }
  }

  /** An entry added for a chain that was written first, as a whole. */
  lemma AddDone(d: Disk, start: seq<Disk>, t: Disk, mid: seq<Disk>, u: Disk, trace: seq<Disk>, g: Geo, dir: Dir,
      ch: seq<nat>, foreign: set<nat>, own: set<nat>, ys: seq<Item>, ok: bool, failed: bool, name: Name, at: nat,
      attr: byte, size: nat, first: nat, cs: seq<nat>)
    requires SameListing(d, t, g, dir, ch, ch, foreign) && TraceShow(start, mid, g, dir, foreign, Items(d, g, ch))
      && FewerFree(d.fat, t.fat)
    requires DirChain(g.kind, d.fat, dir) == Some(ch) == DirChain(g.kind, t.fat, dir)
    requires Outcome(t, mid, u, trace, g, dir, ch, foreign, ys, ok, failed)
    requires !ok && !failed && Addable(t, g, dir, ch, name) ==> CrowdedAt(mid, trace, at, g, dir)
    requires FatOnly(d.fat, t.fat, Members(cs)) && AllFreeClusters(d.fat, Members(cs))
    requires Chain(g.kind, t.fat, first) == Some(cs) && (forall i :: 0 <= i < |cs| ==> cs[i] in own)
    requires ok ==> KeptOn(t, u, own) && NoneLost(t, u, g, dir) && Entered(u, g, dir, name, attr, first, size)
    requires !ok && !failed ==> NoneLostBut(t, u, g, dir, cs) && Freed(u.fat, cs)
    ensures Items(t, g, ch) == Items(d, g, ch)
    ensures Outcome(d, start, u, trace, g, dir, ch, foreign, ys, ok, failed)
    ensures !ok && !failed && Addable(d, g, dir, ch, name) ==> CrowdedAt(start, trace, at, g, dir)
    ensures ok ==> Spent(d, u, g, dir, name, attr, size)
    ensures !ok && !failed ==> NoneLost(d, u, g, dir)
  {
    TakenOr(d, t, u, g, dir, name, attr, size, first, cs, own, ok, failed);
    StagedAdd(d, start, t, mid, u, trace, g, dir, ch, foreign, ys, ok, failed, name, at);
  }

  /** The cluster written for a new directory holds one. */
  lemma DirStaged(t: Disk, g: Geo, dir: Dir, ch: seq<nat>, c: nat)
    requires Formatted(t, g) && |t.fat| <= Eof(g.kind) - 7 && DirChain(g.kind, t.fat, dir) == Some(ch)
    requires Chain(g.kind, t.fat, c) == Some([c]) && c < |t.area|
      && t.area[c] == DotSlots(c, if dir.FixedRoot? || dir.root then 0 else dir.cluster, g.per, g.kind)
    ensures NewDir(Content(t, c, g.kind), c, dir, g.kind) && Fits(c, 0, g.kind)
  {
    GatherOne(t.area, c);
    SizesFit(g.kind, c, |t.fat|, 0);
    if dir.At? { SizesFit(g.kind, dir.cluster, |t.fat|, 0); }
    NewDirDots(c, dir, g.per, g.kind);
  }

  /** Data packed into a linked chain is what the chain holds. */
  lemma ChainWritten(t: Disk, g: Geo, cs: seq<nat>, data: seq<byte>)
    requires (cs != [] ==> Linked(g.kind, t.fat, cs)) && Packed(t.area, cs, g.per, data, 0)
    ensures Chain(g.kind, t.fat, if cs == [] then 0 else cs[0]) == Some(cs)
      && Gather(t.area, cs) == Pack(data, 0, Pos(|cs|, g.per))
  {
    GatherPack(t.area, cs, g.per, data, 0);
    if cs != [] { LinkedChain(g.kind, t.fat, cs); }
  }

  /** Where no room was found, the old items show. */
  lemma NoRoom(d: Disk, start: seq<Disk>, t: Disk, trace: seq<Disk>, g: Geo, dir: Dir, chain: seq<nat>, ch: seq<nat>,
      all: set<nat>, foreign: set<nat>, n: nat, failed: bool)
    requires TraceGrown(start, trace, g, dir, all, Items(d, g, chain), Breakable(g, d.fat, dir, chain))
      && foreign <= all
    requires !failed ==> SameListing(d, t, g, dir, chain, ch, all) && Cramped(t, g, dir, n) && 1 <= n <= 21
    ensures TraceAdding(start, trace, g, dir, foreign, Items(d, g, chain), Items(d, g, chain),
      Breakable(g, d.fat, dir, chain))
    ensures !failed ==> Unchanged(d, t, g, dir, chain, all) && Crowded(t, g, dir)
  {
    AddingGrown(start, trace, trace, g, dir, all, foreign, Items(d, g, chain), Items(d, g, chain),
      Breakable(g, d.fat, dir, chain));
  }

  /** Where room was found, the entry may be inserted. */
  lemma RoomFound(d: Disk, t: Disk, g: Geo, dir: Dir, chain: seq<nat>, ch: seq<nat>, foreign: set<nat>, own: set<nat>,
      cs: seq<nat>, a: nat, x: Entry)
    requires WellKept(d, g, dir, chain, foreign + own) && foreign !! own
      && Insertable(d, g, Records(Slots(d, chain), g.kind), x, cs, own)
    requires SameListing(d, t, g, dir, chain, ch, foreign + own) && KeptOn(d, t, foreign + own)
    requires FreeRun(Slots(t, ch), End(Slots(t, ch)), a, |SlotsOf(x, g.kind)|)
    ensures Inserts(t, g, dir, ch, foreign, own, cs, a, x)
    ensures Items(t, g, ch) == Items(d, g, chain) && Content(t, x.first, g.kind) == Content(d, x.first, g.kind)
  {
    KeptLess(d, t, foreign + own, own);
    StillInsertable(d, t, g, Records(Slots(d, chain), g.kind), x, cs, own);
  }

  /** A directory that grows by a cluster and stays within the size limit stays within the limit on clusters. */
  lemma RoomInLimit(d: Disk, g: Geo, dir: Dir, ch: seq<nat>)
    requires Formatted(d, g) && Limits(g) && dir.At? && DirChain(g.kind, d.fat, dir) == Some(ch)
      && 32 * (|Slots(d, ch)| + g.per) <= MAX_METADATA
    ensures |ch| < g.dirLimit
  {
    ChainWide(d, g, dir, ch);
    if |ch| >= g.dirLimit { PosMono(g.dirLimit + 1, |ch| + 1, g.per); }
  }

  /** A directory the driver loads has fewer records than there are numbered short names. */
  lemma LoadedFits(d: Disk, g: Geo, dir: Dir, ch: seq<nat>)
    requires Formatted(d, g) && Limits(g) && DirChain(g.kind, d.fat, dir) == Some(ch) && InLimit(g, dir, ch)
    ensures |Records(Slots(d, ch), g.kind)| < LAST_NUMBER
  {
    ChainWide(d, g, dir, ch);
    if dir.At? {
      PosMono(|ch|, g.dirLimit, g.per);
    } else {
      assert Pos(1, g.rootSlots) == g.rootSlots + Pos(0, g.rootSlots);
    }
    RecordsFit(Slots(d, ch), g.kind);
  }

  lemma KeptDistinct(d: Disk, g: Geo, dir: Dir, ch: seq<nat>, foreign: set<nat>)
    requires WellKept(d, g, dir, ch, foreign)
    ensures Distinct(Items(d, g, ch)) && Loads(d, g, dir) && ItemsAt(d, g, dir) == Items(d, g, ch)
  {
    ItemsAgree(d, Records(Slots(d, ch), g.kind), g.kind);
    DistinctRecords(Items(d, g, ch), Records(Slots(d, ch), g.kind));
  }

  lemma OverwrittenRead(d: Disk, t: Disk, g: Geo, dir: Dir, ch: seq<nat>, foreign: set<nat>, xs: seq<Item>,
      ys: seq<Item>, k: nat, name: Name, data: seq<byte>)
    requires Loads(d, g, dir) && ItemsAt(d, g, dir) == xs && Distinct(xs) && Showing(t, g, dir, foreign, ys)
    requires AddedFile(g, xs, ys, name, data) || (Replaced1(g, xs, ys, k, data) && Means(xs[k], name))
    requires Meant(xs, name) ==> MaybeReplaced(g, xs, ys, k, name, data)
    ensures ReadAt(t, g, dir, name) == Some(data)
    ensures Meant(xs, name) ==> k < |xs| && Means(xs[k], name) && forall q :: !Means(xs[k], q) ==>
      ReadAt(t, g, dir, q) == ReadAt(d, g, dir, q)
    ensures !Meant(xs, name) ==> forall q :: Meant(xs, q) ==> ReadAt(t, g, dir, q) == ReadAt(d, g, dir, q)
  {
    if Meant(xs, name) {
      AddedMore(g, xs, ys, name, data);
      ReplacedRead(g, xs, ys, k, data, name);
      forall q | !Means(xs[k], q)
        ensures ReadAt(t, g, dir, q) == ReadAt(d, g, dir, q)
      {
        ReplacedRead(g, xs, ys, k, data, q);
      }
    } else {
      AddedRead(g, xs, ys, name, data, name);
      forall q | Meant(xs, q)
        ensures ReadAt(t, g, dir, q) == ReadAt(d, g, dir, q)
      {
        AddedRead(g, xs, ys, name, data, q);
      }
    }
  }

  /** A record is read exactly if its chain is within the limit and holds its size. */
  lemma ChainReadable(d: Disk, g: Geo, r: Record)
    requires Formatted(d, g)
    ensures match ChainUpTo(g.kind, d.fat, r.cluster, g.fileLimit)
      case None => !Readable(g, ItemOf(d, r, g.kind))
      case Some(cs) =>
        && Content(d, r.cluster, g.kind) == Some(Gather(d.area, cs))
        && |Gather(d.area, cs)| == Pos(|cs|, g.per) <= Pos(g.fileLimit, g.per)
  {
    var chain := Chain(g.kind, d.fat, r.cluster);
    if chain.Some? {
      var cs := chain.value;
      ChainAreaWide(d, g, r.cluster, cs);
      GatherLength(d.area, cs, g.per);
      if |cs| <= g.fileLimit { PosMono(|cs|, g.fileLimit, g.per); } else { PosMono(g.fileLimit + 1, |cs|, g.per); }
    }
  }

  /** Old items, or those and the new file. */
  ghost predicate MaybeFile(g: Geo, xs: seq<Item>, ys: seq<Item>, name: Name, data: seq<byte>)
  {
    ys == xs || AddedFile(g, xs, ys, name, data)
  }

  /** Old items, or those and the new empty directory. */
  ghost predicate MaybeDir(xs: seq<Item>, ys: seq<Item>, name: Name, dir: Dir, kind: Kind)
  {
    ys == xs || AddedDir(xs, ys, name, dir, kind)
  }

  ghost predicate MaybeReplaced(g: Geo, xs: seq<Item>, ys: seq<Item>, k: nat, name: Name, data: seq<byte>) {
    ys == xs || (Replaced1(g, xs, ys, k, data) && Means(xs[k], name))
  }

  /**
    A record may be deleted: not read-only, its chain can be freed, and a directory can be read
    and is empty.
   */
  ghost predicate Removable(d: Disk, g: Geo, r: Record) {
    && r.attr % 2 == 0 && ChainUpTo(g.kind, d.fat, r.cluster, g.fileLimit).Some?
    && (r.attr / 16 % 2 == 1 ==> Loads(d, g, At(r.cluster, false)) && Vacated(d, g, r.cluster))
  }

  /** The directory at cluster `c` has no entries. */
  ghost predicate Vacated(d: Disk, g: Geo, c: nat)
    requires Loads(d, g, At(c, false))
  { Records(Slots(d, DirChain(g.kind, d.fat, At(c, false)).value), g.kind) == [] }

  /** Item `k` is the one the name means, and may be removed. */
  ghost predicate MayRemove(d: Disk, g: Geo, ch: seq<nat>, k: nat, name: Name) {
    var rs := Records(Slots(d, ch), g.kind);
    k < |rs| && Matches(rs[k], name) && Removable(d, g, rs[k])
  }

  /** A file may not be overwritten: a directory, read-only, or its chain is too long to free. */
  ghost predicate Unwritable(g: Geo, fat: seq<nat>, r: Record)
  {
    IsDir(r.attr) || r.attr % 2 == 1 || ChainUpTo(g.kind, fat, r.cluster, g.fileLimit).None?
  }

  /** Record `k` is one the name means, no directory and not read-only. */
  ghost predicate MayReplace(rs: seq<Record>, k: nat, name: Name) {
    k < |rs| && Matches(rs[k], name) && rs[k].attr % 2 == 0 && rs[k].attr / 16 % 2 == 0
  }

  ghost predicate OneUnwritable(g: Geo, fat: seq<nat>, rs: seq<Record>, name: Name)
  {
    exists k: nat :: k < |rs| && Matches(rs[k], name) && Unwritable(g, fat, rs[k])
  }

  ghost predicate NoRun(slots: seq<Slot>, n: nat) { forall a :: !AllFree(slots, End(slots), a, n) }

  /**
    A mounted volume on a device that accepts `writes` sector writes and then fails. `trace` lists
    the states of the disk.
   */
  class Volume {
    const g: Geo
    ghost const writes: nat
    var fat: seq<nat>
    var disk: Disk
    var hint: nat
    var freeCount: nat
    var failed: bool
    var budget: nat
    ghost var trace: seq<Disk>

    /**
      The volume's shape; while the device works the cached table is the one on
      disk; every write made is in the trace, and the volume fails only when the
      device does.
     */
    ghost predicate Core()
      reads this
    {
      && Formatted(disk, g) && Limits(g) && |fat| == |disk.fat| && 2 <= hint < |fat| && |fat| <= Eof(g.kind) - 7
      && (!failed ==> fat == disk.fat)
      && trace != [] && trace[|trace| - 1] == disk
      && |trace| + budget == writes + 1 && (failed ==> budget == 0)
    }

    ghost predicate Valid()
      reads this
    { Core() && (!failed ==> freeCount == |Zeros(fat)|) }

    /** A volume just mounted: the table is read and its free clusters are counted. */
    constructor (v: Geometry, disk: Disk, budget: nat)
      requires Probed(v) && (v.spc > 0 ==> Formatted(disk, GeoOf(v))) && |disk.fat| == v.clusters + 2
      ensures Valid() && v.spc > 0 && g == GeoOf(v) && this.disk == disk && trace == [disk] && writes == budget
        && !failed
    {
      ProbedShape(v);
      GeoLimits(v);
      this.g, this.disk, this.budget, this.fat, this.failed, this.hint := GeoOf(v), disk, budget, disk.fat, false, 2;
      this.trace, this.writes := [disk], budget;
      this.freeCount := 0;
      new;
      var n := CountFree();
      freeCount := n;
    }

    method CountFree() returns (n: nat)
      ensures n == |Zeros(fat)|
    {
      n := 0;
      ghost var seen := {};
      var c := 2;
      while c < |fat|
        invariant 2 <= c && (c <= |fat| || |fat| < 2) && seen == ZerosBelow(fat, c) && n == |seen|
      {
        if fat[c] == 0 {
          n := n + 1;
          seen := seen + {c};
        }
        c := c + 1;
      }
      assert seen == Zeros(fat);
    }

    predicate ValidCluster(c: nat)
      reads this`fat
    { 2 <= c < |fat| }

    /** One sector write to a copy of the table, after which entry `c` of the copy that is read stands at `v`. */
    method WriteEntry(c: nat, v: nat, ghost d: Disk, ghost value: nat, ghost start: seq<Disk>) returns (ok: bool)
      requires Formatted(disk, g) && Limits(g) && |fat| == |disk.fat| && c < |fat| && trace != []
        && |trace| + budget == writes + 1 && !failed
      requires TraceSetting(start, trace, g.kind, d, c, value, disk)
        && Setting(g.kind, d, c, value, disk.(fat := disk.fat[c := v]))
      modifies this`disk, this`failed, this`budget, this`trace
      ensures Formatted(disk, g) && |fat| == |disk.fat| && |trace| + budget == writes + 1 && ok == !failed
        && (failed ==> budget == 0)
      ensures TraceSetting(start, trace, g.kind, d, c, value, disk)
      ensures
        if ok then disk == old(disk).(fat := old(disk.fat)[c := v]) && trace == old(trace) + [disk]
        else disk == old(disk) && trace == old(trace)
    {
      if budget == 0 {
        failed := true;
        return false;
      }
      TraceSettingStep(start, trace, g.kind, d, c, value, disk, disk.(fat := disk.fat[c := v]));
      budget := budget - 1;
      disk := disk.(fat := disk.fat[c := v]);
      trace := trace + [disk];
      ok := true;
    }

    /**
      Writes an entry to every copy of the table, one sector at a time; the copy that
      is read comes first. In every state on the way the entry is set, or half set, and
      an entry that lies in two sectors is half set in the first of them.
     */
    method Set(c: nat, value: nat) returns (ok: bool)
      requires Core() && value <= Eof(g.kind)
      modifies this`fat, this`disk, this`failed, this`budget, this`trace
      ensures Core() && (old(failed) ==> failed && disk == old(disk) && trace == old(trace))
      ensures ok ==> !failed && 2 <= c < |old(disk.fat)| && disk == old(disk).(fat := old(disk.fat)[c := value])
      ensures TraceSetting(old(trace), trace, g.kind, old(disk), c, value, disk)
      ensures ok && Straddles(g.kind, c) ==>
        |old(trace)| < |trace|
        && trace[|old(trace)|] == old(disk).(fat := old(disk.fat)[c := Torn(c, old(disk.fat)[c], value)])
      ensures !ok ==> failed || (!ValidCluster(c) && fat == old(fat) && disk == old(disk) && trace == old(trace))
    {
      if failed { return false; }
      if !ValidCluster(c) { return false; }
      ghost var d, start := disk, trace;
      fat := fat[c := value];
      for copy := 0 to g.copies
        invariant Formatted(disk, g) && fat == d.fat[c := value] && |trace| + budget == writes + 1 && !failed
        invariant TraceSetting(start, trace, g.kind, d, c, value, disk)
        invariant copy == 0 ==> disk == d && trace == start
        invariant copy > 0 ==> disk == d.(fat := d.fat[c := value])
        invariant copy > 0 && Straddles(g.kind, c) ==>
          |start| < |trace| && trace[|start|] == d.(fat := d.fat[c := Torn(c, d.fat[c], value)])
      {
        if Straddles(g.kind, c) {
          ok := WriteEntry(c, if copy == 0 then Torn(c, disk.fat[c], value) else value, d, value, start);
          if !ok { return; }
        }
        ok := WriteEntry(c, value, d, value, start);
        if !ok { return; }
      }
      ok := true;
    }

    /** Writes the sector of cluster `c` that begins at slot `at`. */
    method WriteSector(c: nat, at: nat, ss: seq<Slot>) returns (ok: bool)
      requires Core() && 1 <= c < |disk.area| && at + |ss| <= |disk.area[c]|
      modifies this`disk, this`failed, this`budget, this`trace
      ensures Core() && disk.fat == old(disk.fat)
      ensures ok ==>
        !failed && disk == old(disk).(area := old(disk.area)[c := Splice(old(disk.area)[c], at, ss)])
        && trace == old(trace) + [disk]
      ensures !ok ==> failed && disk == old(disk) && trace == old(trace)
      ensures old(failed) ==> failed
    {
      if failed { return false; }
      if budget == 0 {
        failed := true;
        return false;
      }
      budget := budget - 1;
      disk := disk.(area := disk.area[c := Splice(disk.area[c], at, ss)]);
      trace := trace + [disk];
      ok := true;
    }

    /** The chain from `first`, unless it is broken, cyclic or longer than `max`. */
    method FindChain(first: nat, max: nat) returns (r: Option<seq<nat>>)
      requires Core()
      ensures r == if failed then None else ChainUpTo(g.kind, fat, first, max)
    {
      if failed { return None; }
      if first == 0 { return Some([]); }
      var out, c := [], first;
      while true
        invariant Path(g.kind, fat, first, out, c) && |out| <= max && |out| <= |fat|
        decreases |fat| - |out|
      {
        if !ValidCluster(c) || |out| >= max || c in out {
          PathStuck(g.kind, fat, first, out, c, max);
          return None;
        }
        PathStep(g.kind, fat, first, out, c);
        var next := fat[c];
        out := out + [c];
        if IsEof(g.kind, next) {
          LinkedChain(g.kind, fat, out);
          return Some(out);
        }
        c := next;
      }
    }

    method Candidate(o: nat, ghost order: seq<nat>) returns (c: nat)
      requires 2 <= hint < |fat| && o < |fat| - 2 && order == Order(hint, |fat| - 2)
      ensures c == order[o]
    {
      OrderAt(hint, |fat| - 2, o);
      c := 2 + (hint - 2 + o) % (|fat| - 2);
    }

    /** The first `count` free clusters, from the hint on and around; fewer only if there are no more. */
    method SelectFree(count: nat) returns (sel: seq<nat>)
      requires 2 <= hint < |fat| && count > 0
      ensures NoDup(sel) && forall i :: 0 <= i < |sel| ==> 2 <= sel[i] < |fat| && fat[sel[i]] == 0
      ensures |sel| <= count && (|sel| < count ==> |sel| == |Zeros(fat)|)
    {
      ghost var o;
      sel, o := Pick(count, Order(hint, |fat| - 2));
      OrderRound(hint, |fat| - 2);
      SelectDone(fat, Order(hint, |fat| - 2), o, sel);
    }

    /** Looks at the clusters in their order until there are enough. */
    method Pick(count: nat, ghost order: seq<nat>) returns (sel: seq<nat>, ghost seen: nat)
      requires 2 <= hint < |fat| && order == Order(hint, |fat| - 2)
      ensures Picked(fat, order, seen, sel) && |sel| <= count && (|sel| < count ==> seen == |order|)
    {
      sel := [];
      PickedNone(fat, order);
      var o := 0;
      while o < |fat| - 2 && |sel| < count
        invariant o <= |fat| - 2 && |sel| <= count && Picked(fat, order, o, sel)
      {
        sel := PickAt(o, order, sel);
        o := o + 1;
      }
      seen := o;
    }

    method PickAt(o: nat, ghost order: seq<nat>, sel: seq<nat>) returns (sel': seq<nat>)
      requires 2 <= hint < |fat| && o < |fat| - 2 && order == Order(hint, |fat| - 2) && Picked(fat, order, o, sel)
      ensures Picked(fat, order, o + 1, sel') && |sel'| <= |sel| + 1
    {
      var c := Candidate(o, order);
      PickedNext(fat, order, o, sel);
      sel' := if fat[c] == 0 then sel + [c] else sel;
    }

    /** Moves the hint to the cluster after `last`, around to the first, and counts `count` clusters as used. */
    method Took(last: nat, count: nat)
      requires Core() && 2 <= last < |fat| && freeCount >= count && (!failed ==> freeCount - count == |Zeros(fat)|)
      modifies this`hint, this`freeCount
      ensures Valid() && hint == (if last + 1 < |fat| then last + 1 else 2) && freeCount == old(freeCount) - count
    {
      var n := |fat| - 2;
      if last - 1 < n { DivMod(last - 1, n, 0, last - 1); } else { DivMod(last - 1, n, 1, 0); }
      hint := 2 + (last - 1) % n;
      freeCount := freeCount - count;
    }

    /** Links the clusters `cs`, all free, to a chain. */
    method Link(cs: seq<nat>, ghost off: set<nat>) returns (ok: bool)
      requires Core() && !failed && NoDup(cs) && forall i :: 0 <= i < |cs| ==>
        2 <= cs[i] < |fat| && fat[cs[i]] == 0 && cs[i] in off
      modifies this`fat, this`disk, this`failed, this`budget, this`trace
      ensures Core() && disk.area == old(disk.area) && ok == !failed
      ensures OffOnly(old(disk), disk, off) && TraceOff(old(trace), trace, old(disk), off)
      ensures ok ==> PartLinked(g.kind, old(disk.fat), disk.fat, cs, |cs|)
    {
      ghost var d, start := disk, trace;
      for k := 0 to |cs|
        invariant Core() && !failed && disk.area == d.area && PartLinked(g.kind, d.fat, disk.fat, cs, k)
        invariant OffOnly(d, disk, off) && TraceOff(start, trace, d, off)
      {
        LinkStep(g.kind, d.fat, disk.fat, cs, k);
        ghost var before, t := trace, disk;
        ok := Set(cs[k], Successor(g.kind, cs, k));
        TraceSettingOff(start, before, trace, g.kind, d, t, off, cs[k], Successor(g.kind, cs, k), disk);
        if !ok { return; }
      }
      ok := true;
    }

    /** A new chain of `count` clusters. Only entries of clusters that were free change, in every state on the way. */
    method Allocate(count: nat) returns (r: Option<seq<nat>>, ghost off: set<nat>)
      requires Valid()
      modifies this
      ensures Valid()
      ensures AllFreeClusters(old(disk.fat), off) && disk.area == old(disk.area)
      ensures OffOnly(old(disk), disk, off) && TraceOff(old(trace), trace, old(disk), off)
      ensures r.Some? ==>
        !failed && |r.value| == count && NoDup(r.value) && (forall i :: 0 <= i < count ==> r.value[i] in off)
        && (count > 0 ==> Linked(g.kind, disk.fat, r.value))
      ensures r.Some? ==> forall c :: c in off ==> 2 <= c < |disk.fat| && disk.fat[c] != 0
      ensures r.Some? && count == 1 ==> off == {r.value[0]}
      ensures r.None? && !failed ==> disk == old(disk) && trace == old(trace) && |Zeros(old(fat))| < count
      ensures old(failed) ==> failed && disk == old(disk) && trace == old(trace)
      ensures r.Some? ==> off == Members(r.value)
    {
      off := {};
      if failed { return None, off; }
      if count == 0 { return Some([]), off; }
      var picked := SelectFree(count);
      if |picked| != count { return None, off; }
      var ok := TakeAll(picked);
      off := Members(picked);
      r := if ok then Some(picked) else None;
    }

    method TakeAll(cs: seq<nat>) returns (ok: bool)
      requires Valid() && !failed && cs != [] && NoDup(cs) && forall i :: 0 <= i < |cs| ==>
        2 <= cs[i] < |fat| && fat[cs[i]] == 0
      modifies this
      ensures Valid() && ok == !failed && disk.area == old(disk.area)
      ensures OffOnly(old(disk), disk, Members(cs)) && TraceOff(old(trace), trace, old(disk), Members(cs))
      ensures ok ==> Linked(g.kind, disk.fat, cs) && forall c :: c in Members(cs) ==>
        2 <= c < |disk.fat| && disk.fat[c] != 0
    {
      MembersAll(cs, Members(cs));
      ghost var before := disk.fat;
      ok := Link(cs, Members(cs));
      if !ok { return; }
      ZerosLinked(g.kind, before, disk.fat, cs);
      LinkDone(g.kind, before, disk.fat, cs);
      Took(cs[|cs| - 1], |cs|);
    }

    /** Frees a chain entry by entry. Only the chain's own entries change, in every state on the way. */
    method Free(first: nat) returns (ok: bool)
      requires Valid()
      modifies this
      ensures Valid() && disk.area == old(disk.area)
      ensures old(failed) ==> failed && disk == old(disk) && trace == old(trace)
      ensures ok ==> !failed && Chain(g.kind, old(disk.fat), first).Some?
      ensures match Chain(g.kind, old(disk.fat), first)
        case None => disk == old(disk) && trace == old(trace)
        case Some(cs) =>
          && OffOnly(old(disk), disk, Members(cs)) && TraceOff(old(trace), trace, old(disk), Members(cs))
          && (ok ==> Freed(disk.fat, cs))
      ensures !ok ==> failed || (ChainUpTo(g.kind, old(fat), first, g.fileLimit).None? && fat == old(fat))
    {
      var chain := FindChain(first, g.fileLimit);
      if chain.None? { return false; }
      var cs := chain.value;
      if first != 0 {
        FollowLinked(g.kind, fat, first, |fat|);
        LinkedChain(g.kind, fat, cs);
      }
      ok := FreeAll(cs, Members(cs));
    }

    method FreeAll(cs: seq<nat>, ghost off: set<nat>) returns (ok: bool)
      requires Valid() && !failed && NoDup(cs) && forall i :: 0 <= i < |cs| ==>
        2 <= cs[i] < |fat| && fat[cs[i]] != 0 && cs[i] in off
      modifies this
      ensures Valid() && disk.area == old(disk.area) && ok == !failed
      ensures OffOnly(old(disk), disk, off) && TraceOff(old(trace), trace, old(disk), off)
      ensures ok ==> Freed(disk.fat, cs)
    {
      ghost var d, start := disk, trace;
      for k := 0 to |cs|
        invariant Valid() && !failed && disk.area == d.area
        invariant (forall i :: 0 <= i < k ==> disk.fat[cs[i]] == 0)
          && (forall i :: k <= i < |cs| ==> disk.fat[cs[i]] == d.fat[cs[i]])
        invariant OffOnly(d, disk, off) && TraceOff(start, trace, d, off)
      {
        ok := FreeOne(cs[k], d, start, off);
        if !ok { return; }
      }
      ok := true;
    }

    method FreeOne(c: nat, ghost d: Disk, ghost start: seq<Disk>, ghost off: set<nat>) returns (ok: bool)
      requires Valid() && !failed && 2 <= c < |fat| && fat[c] != 0 && c in off && OffOnly(d, disk, off)
        && TraceOff(start, trace, d, off)
      modifies this
      ensures Valid() && disk.area == old(disk.area) && ok == !failed && OffOnly(d, disk, off)
        && TraceOff(start, trace, d, off)
      ensures ok ==> disk.fat == old(disk.fat)[c := 0]
    {
      ZerosFreed(fat, c);
      ghost var before, t := trace, disk;
      ok := Set(c, 0);
      TraceSettingOff(start, before, trace, g.kind, d, t, off, c, 0, disk);
      if !ok { return; }
      hint := if c < hint then c else hint;
      freeCount := freeCount + 1;
    }

    /** Writes a whole cluster sector by sector; in every state on the way only clusters of `off` differ from `d`. */
    method WriteCluster(c: nat, data: seq<Slot>, ghost d: Disk, ghost start: seq<Disk>, ghost off: set<nat>)
        returns (ok: bool)
      requires Valid() && c in off && OffOnly(d, disk, off) && TraceOff(start, trace, d, off)
      modifies this`disk, this`failed, this`budget, this`trace
      ensures Valid() && disk.fat == old(disk.fat) && OffOnly(d, disk, off) && TraceOff(start, trace, d, off)
      ensures ok ==> !failed && c < |old(disk.area)| && disk.area == old(disk.area)[c := data]
      ensures !ok ==> failed || ((!ValidCluster(c) || |data| != g.per) && disk == old(disk))
      ensures old(failed) ==> failed && disk == old(disk) && trace == old(trace)
    {
      if !ValidCluster(c) || |data| != g.per { return false; }
      ghost var was := disk.area;
      assert Splice(was[c], 0, data[..0]) == was[c];
      for i := 0 to g.per / 16
        invariant Valid() && disk.fat == old(disk.fat) && OffOnly(d, disk, off) && TraceOff(start, trace, d, off)
        invariant disk.area == was[c := Splice(was[c], 0, data[..16 * i])]
        invariant failed == old(failed) && (failed ==> disk == old(disk) && trace == old(trace) && i == 0)
      {
        SpliceNext(was[c], data, 16 * i, 16 * (i + 1));
        OffArea(d, disk, off, c, Splice(disk.area[c], 16 * i, data[16 * i..16 * (i + 1)]));
        ghost var before := trace;
        ok := WriteSector(c, 16 * i, data[16 * i..16 * (i + 1)]);
        if !ok { return; }
        TraceOffStep(start, before, d, off, disk);
      }
      ok := true;
      assert data[..g.per] == data && Splice(was[c], 0, data) == data;
    }

    /** Writes the data of a file to a new chain of clusters that were free. */
    method WriteData(data: seq<byte>) returns (r: Option<nat>, ghost cs: seq<nat>, ghost off: set<nat>)
      requires Valid()
      modifies this
      ensures Valid()
      ensures AllFreeClusters(old(disk.fat), off) && OffOnly(old(disk), disk, off)
        && TraceOff(old(trace), trace, old(disk), off)
      ensures r.Some? ==>
        !failed && Chain(g.kind, disk.fat, r.value) == Some(cs) && (r.value != 0 ==> r.value == cs[0])
        && (forall i :: 0 <= i < |cs| ==> cs[i] in off)
      ensures r.Some? ==> forall c :: c in off ==> 2 <= c < |disk.fat| && disk.fat[c] != 0
      ensures r.Some? ==>
        |data| <= MAX_FILE && |data| <= 32 * Pos(|cs|, g.per) && |cs| <= g.fileLimit
        && Gather(disk.area, cs) == Pack(data, 0, Pos(|cs|, g.per))
      ensures r.None? && !failed ==> disk == old(disk) && trace == old(trace) && NoFit(old(fat), g, |data|)
      ensures old(failed) ==> failed && disk == old(disk) && trace == old(trace)
      ensures r.Some? ==> off == Members(cs)
    {
      cs, off := [], {};
      if |data| > MAX_FILE { return None, cs, off; }
      var count := ClustersFor(|data|);
      if count > g.fileLimit { PosMono(g.fileLimit, count - 1, g.per); }
      ghost var d, start := disk, trace;
      var a: Option<seq<nat>>;
      a, off := Allocate(count);
      if a.None? {
        if !failed { PosMono(|Zeros(fat)|, count - 1, g.per); }
        return None, cs, off;
      }
      var clusters := a.value;
      cs := clusters;
      var ok := WriteAll(clusters, data, d, start, off);
      if !ok { return None, cs, off; }
      ChainWritten(disk, g, cs, data);
      r := Some(if clusters == [] then 0 else clusters[0]);
    }

    method ClustersFor(len: nat) returns (count: nat)
      requires g.per >= 16
      ensures len <= 32 * Pos(count, g.per) && (count > 0 ==> 32 * Pos(count - 1, g.per) < len)
    {
      var bytes := 32 * g.per;
      count := (len + bytes - 1) / bytes;
      Rounded(len, g.per, count);
    }

    method WriteAll(cs: seq<nat>, data: seq<byte>, ghost d: Disk, ghost start: seq<Disk>, ghost off: set<nat>)
        returns (ok: bool)
      requires Valid() && !failed && NoDup(cs) && (forall i :: 0 <= i < |cs| ==> cs[i] in off && 2 <= cs[i] < |fat|)
        && OffOnly(d, disk, off) && TraceOff(start, trace, d, off)
      modifies this`disk, this`failed, this`budget, this`trace
      ensures Valid() && disk.fat == old(disk.fat) && OffOnly(d, disk, off) && TraceOff(start, trace, d, off)
        && ok == !failed
      ensures ok ==> Packed(disk.area, cs, g.per, data, 0)
    {
      var at := 0;
      for i := 0 to |cs|
        invariant Valid() && !failed && disk.fat == old(disk.fat) && OffOnly(d, disk, off)
          && TraceOff(start, trace, d, off)
        invariant at == Pos(i, g.per)
        invariant Packed(disk.area, cs[..i], g.per, data, 0)
      {
        PackedNext(disk.area, cs, i, g.per, data);
        ok := WriteCluster(cs[i], Pack(data, at, g.per), d, start, off);
        if !ok { return; }
        at := at + g.per;
      }
      assert cs[..|cs|] == cs;
      ok := true;
    }

    /** The clusters of a directory and its slots. */
    method LoadDir(dir: Dir) returns (r: Option<(seq<nat>, seq<Slot>)>)
      requires Core()
      ensures r.Some? ==>
        !failed && DirChain(g.kind, disk.fat, dir) == Some(r.value.0) && r.value.1 == Slots(disk, r.value.0)
        && |r.value.1| == Pos(|r.value.0|, DirWidth(g, dir))
      ensures r.Some? <==> !failed && Loads(disk, g, dir)
    {
      if failed { return None; }
      if dir.FixedRoot? {
        GatherOne(disk.area, 1);
        return Some(([1], disk.area[1]));
      }
      var chain := FindChain(dir.cluster, g.dirLimit);
      if chain.None? || chain.value == [] { return None; }
      ChainWide(disk, g, dir, chain.value);
      var data := ReadAll(chain.value);
      r := Some((chain.value, data));
    }

    method ReadAll(cs: seq<nat>) returns (data: seq<Slot>)
      requires forall i :: 0 <= i < |cs| ==> cs[i] < |disk.area|
      ensures data == Gather(disk.area, cs)
    {
      data := [];
      for i := 0 to |cs|
        invariant data == Gather(disk.area, cs[..i])
      {
        assert cs[..i + 1] == cs[..i] + [cs[i]];
        GatherConcat(disk.area, cs[..i], [cs[i]]);
        GatherOne(disk.area, cs[i]);
        data := data + disk.area[cs[i]];
      }
      assert cs[..|cs|] == cs;
    }

    /** The cluster of the chain that holds sector `index`, and the sector's first slot in it. */
    method Locate(dir: Dir, ghost ch: seq<nat>, index: nat, ghost take: nat, ghost size: nat) returns (q: nat, off: nat)
      requires g.per >= 16 && g.per % 16 == 0 && size == Pos(|ch|, DirWidth(g, dir)) && 0 < take <= 16
        && 16 * index + take <= size && (dir.FixedRoot? ==> |ch| == 1)
      ensures q < |ch| && Pos(q, DirWidth(g, dir)) + off == 16 * index && off + take <= DirWidth(g, dir)
    {
      if dir.FixedRoot? {
        assert Pos(1, g.rootSlots) == g.rootSlots + Pos(0, g.rootSlots);
        q, off := 0, 16 * index;
        return;
      }
      var m := g.per / 16;
      SectorAt(index, m, g.per, 16 * index);
      q, off := 16 * index / g.per, 16 * index % g.per;
      SectorPos(index, m, g.per, q, index % m);
      if q >= |ch| { PosMono(|ch|, q, g.per); }
    }

    /** Writes the sectors of a directory that hold slots [start, start + len) of its new image `data`. */
    method StoreDir(dir: Dir, ch: seq<nat>, data: seq<Slot>, start: nat, len: nat) returns (ok: bool)
      requires Valid() && DirChain(g.kind, disk.fat, dir) == Some(ch) && |data| == |Slots(disk, ch)|
      requires forall i :: 0 <= i < |data| && !(start <= i < start + len) ==> data[i] == Slots(disk, ch)[i]
      modifies this`disk, this`failed, this`budget, this`trace
      ensures Valid() && disk.fat == old(disk.fat)
      ensures TraceStoring(old(trace), trace, old(disk), ch, data) && Storing(old(disk), disk, ch, data)
      ensures ok ==> !failed && Slots(disk, ch) == data
      ensures !ok ==> failed || (start + len > |data| && disk == old(disk) && trace == old(trace))
      ensures old(failed) ==> failed && disk == old(disk) && trace == old(trace)
    {
      ghost var d, was := disk, Slots(disk, ch);
      MixedStart(was, data, start, len, 0);
      StoringSelf(d, ch, data, 0);
      if start + len > |data| { return false; }
      if failed { return false; }
      var index, last := start / 16, (start + len + 15) / 16;
      MixedStart(was, data, start, len, 16 * index);
      while index < last
        invariant Valid() && !failed && disk.fat == d.fat && start / 16 <= index && index <= last
        invariant OffOnly(d, disk, Members(ch)) && Storing(d, disk, ch, data)
          && TraceStoring(old(trace), trace, d, ch, data)
        invariant Mixed(was, data, if 16 * index < |data| then 16 * index else |data|, Slots(disk, ch))
      {
        ok := StoreSector(dir, ch, data, index, d);
        if !ok { return; }
        index := index + 1;
      }
      MixedEnd(was, data, start, len, if 16 * index < |data| then 16 * index else |data|, Slots(disk, ch));
      ok := true;
    }

    method StoreSector(dir: Dir, ch: seq<nat>, data: seq<Slot>, index: nat, ghost d: Disk) returns (ok: bool)
      requires Valid() && !failed && DirChain(g.kind, disk.fat, dir) == Some(ch)
        && 16 * index < |data| == |Slots(disk, ch)|
      requires disk.fat == d.fat && OffOnly(d, disk, Members(ch))
        && Mixed(Slots(d, ch), data, 16 * index, Slots(disk, ch))
      modifies this`disk, this`failed, this`budget, this`trace
      ensures Valid() && disk.fat == d.fat && OffOnly(d, disk, Members(ch)) && ok == !failed
      ensures ok ==>
        Mixed(Slots(d, ch), data, if 16 * index + 16 < |data| then 16 * index + 16 else |data|, Slots(disk, ch))
        && Storing(d, disk, ch, data) && trace == old(trace) + [disk]
      ensures !ok ==> disk == old(disk) && trace == old(trace)
    {
      ChainWide(disk, g, dir, ch);
      var begin := 16 * index;
      var take := if |data| - begin < 16 then |data| - begin else 16;
      var q, off := Locate(dir, ch, index, take, |data|);
      ok := StoreAt(ch, data, q, off, begin, begin + take, DirWidth(g, dir), d);
    }

    /** Writes the slots from `a` to `b` into cluster `q` of the chain, from `off` on. */
    method StoreAt(ch: seq<nat>, data: seq<Slot>, q: nat, off: nat, a: nat, b: nat, ghost width: nat, ghost d: Disk)
        returns (ok: bool)
      requires Valid() && !failed && NoDup(ch) && Wide(disk.area, ch, width) && q < |ch| && 1 <= ch[q] < |disk.area|
      requires a <= b <= |data| && off + (b - a) <= width && Pos(q, width) + off == a
      requires disk.fat == d.fat && OffOnly(d, disk, Members(ch)) && Mixed(Slots(d, ch), data, a, Slots(disk, ch))
      modifies this`disk, this`failed, this`budget, this`trace
      ensures Valid() && disk.fat == d.fat && OffOnly(d, disk, Members(ch)) && ok == !failed
      ensures ok ==>
        Mixed(Slots(d, ch), data, b, Slots(disk, ch)) && Storing(d, disk, ch, data) && trace == old(trace) + [disk]
      ensures !ok ==> disk == old(disk) && trace == old(trace)
    {
      ghost var t := disk;
      assert |t.area[ch[q]]| == width;
      ok := WriteSector(ch[q], off, data[a..b]);
      if ok { StoreStep(d, t, ch, width, data, q, off, a, b, disk); }
    }

    // ------------------------------------------------------------ inserting entries

    /** The directory on its way from `d`, with the first `j` slots of the set in place. */
    ghost predicate Putting(dir: Dir, ch: seq<nat>, d: Disk, start: seq<Disk>, a: nat, es: seq<Slot>, j: nat)
      reads this
    {
      && Valid() && !failed && DirChain(g.kind, disk.fat, dir) == Some(ch) && InPlace(d, disk, ch)
      && TraceInserting(start, trace, d, ch, a, es)
      && j <= |es| && a + |es| <= |Slots(d, ch)| && Slots(disk, ch) == Placed(Ended(Slots(d, ch), a, |es|), a, es, j)
    }

    /** Stores the slots of the set from number `j` to number `k`. */
    method StorePlaced(dir: Dir, ch: seq<nat>, data: seq<Slot>, a: nat, es: seq<Slot>, j: nat, k: nat, ghost d: Disk,
        ghost start: seq<Disk>) returns (ok: bool)
      requires Putting(dir, ch, d, start, a, es, j) && j <= k <= |es| && data == Ended(Slots(d, ch), a, |es|)
      modifies this`disk, this`failed, this`budget, this`trace
      ensures Valid() && disk.fat == d.fat && TraceInserting(start, trace, d, ch, a, es)
        && SomeInserting(d, disk, ch, a, es) && ok == !failed
      ensures ok ==> Putting(dir, ch, d, start, a, es, k)
    {
      ghost var before, d1 := trace, disk;
      var image := Placed(data, a, es, k);
      PlacedDiff(data, a, es, j, k, Slots(disk, ch), image);
      ok := StoreDir(dir, ch, image, a + j, k - j);
      TraceStored(start, before, trace, d, d1, ch, a, es, j, k);
      StoringPlaced(d, d1, disk, ch, a, es, j, k);
      InPlaceTrans(d, d1, disk, ch);
    }

    /** Whether the run takes the directory's end marker. */
    method TakesEnd(data: seq<Slot>, a: nat, n: nat) returns (r: bool)
      requires a + n <= |data| && a <= End(data)
      ensures r <==> End(data) < a + n
    {
      for i := a to a + n
        invariant End(data) >= i
      {
        if data[i][0] == 0 { return true; }
      }
      r := false;
    }

    /** Writes an entry set to free slots: a new end marker first if the old one is taken, the short entry last. */
    method PutEntries(dir: Dir, ch: seq<nat>, data: seq<Slot>, a: nat, es: seq<Slot>) returns (ok: bool)
      requires Valid() && !failed && DirChain(g.kind, disk.fat, dir) == Some(ch) && data == Slots(disk, ch)
      requires a <= End(data) && a + |es| <= |data| && es != []
      modifies this`disk, this`failed, this`budget, this`trace
      ensures Valid() && disk.fat == old(disk.fat) && ok == !failed
      ensures TraceInserting(old(trace), trace, old(disk), ch, a, es) && SomeInserting(old(disk), disk, ch, a, es)
      ensures ok ==> Inserting(old(disk), disk, ch, a, es, |es|)
    {
      ghost var d, start := disk, trace;
      var image;
      ok, image := PutMarker(dir, ch, data, a, es);
      if !ok { return; }
      ok := PutSlots(dir, ch, image, a, es, d, start);
      if ok { PlacedEnd(d, disk, ch, a, es); }
    }

    /** The long-name entries, then the short entry. */
    method PutSlots(dir: Dir, ch: seq<nat>, data: seq<Slot>, a: nat, es: seq<Slot>, ghost d: Disk,
        ghost start: seq<Disk>) returns (ok: bool)
      requires Putting(dir, ch, d, start, a, es, 0) && SomeInserting(d, disk, ch, a, es)
        && data == Ended(Slots(d, ch), a, |es|) && es != []
      modifies this`disk, this`failed, this`budget, this`trace
      ensures Valid() && disk.fat == d.fat && TraceInserting(start, trace, d, ch, a, es)
        && SomeInserting(d, disk, ch, a, es) && ok == !failed
      ensures ok ==> Putting(dir, ch, d, start, a, es, |es|)
    {
      var n := |es|;
      if n > 1 {
        ok := StorePlaced(dir, ch, data, a, es, 0, n - 1, d, start);
        if !ok { return; }
      }
      ok := StorePlaced(dir, ch, data, a, es, n - 1, n, d, start);
    }

    /** An end marker after the entry set, if it takes the old one and is not the last. */
    method PutMarker(dir: Dir, ch: seq<nat>, data: seq<Slot>, a: nat, es: seq<Slot>)
        returns (ok: bool, image: seq<Slot>)
      requires Valid() && !failed && DirChain(g.kind, disk.fat, dir) == Some(ch) && data == Slots(disk, ch)
        && a <= End(data) && a + |es| <= |data|
      modifies this`disk, this`failed, this`budget, this`trace
      ensures Valid() && disk.fat == old(disk.fat) && ok == !failed && image == Ended(data, a, |es|)
      ensures TraceInserting(old(trace), trace, old(disk), ch, a, es) && SomeInserting(old(disk), disk, ch, a, es)
      ensures ok ==> Putting(dir, ch, old(disk), old(trace), a, es, 0)
    {
      ghost var d, start := disk, trace;
      var consumed := TakesEnd(data, a, |es|);
      ok, image := true, data;
      if consumed && a + |es| < |data| { ok, image := StoreMarker(dir, ch, data, a, es, |es|); }
      PlacedNone(image, a, es);
    }

    /** Stores an end marker in the slot after the entry set. */
    method StoreMarker(dir: Dir, ch: seq<nat>, data: seq<Slot>, a: nat, ghost es: seq<Slot>, n: nat)
        returns (ok: bool, image: seq<Slot>)
      requires Valid() && !failed && DirChain(g.kind, disk.fat, dir) == Some(ch) && data == Slots(disk, ch)
        && n == |es| && End(data) < a + n < |data|
      modifies this`disk, this`failed, this`budget, this`trace
      ensures Valid() && disk.fat == old(disk.fat) && ok == !failed && image == Ended(data, a, n)
        && InPlace(old(disk), disk, ch)
      ensures TraceInserting(old(trace), trace, old(disk), ch, a, es) && SomeInserting(old(disk), disk, ch, a, es)
      ensures ok ==> Slots(disk, ch) == image
    {
      ghost var d, start := disk, trace;
      var i := a + n;
      image := data[i := data[i][0 := 0]];
      ok := StoreDir(dir, ch, image, i, 1);
      TraceMarker(start, trace, d, ch, a, es);
      MarkerState(d, disk, ch, a, es);
    }

    /** Points the last cluster of a chain to the next one. */
    method LinkTo(last: nat, next: nat) returns (ok: bool)
      requires Valid() && !failed && 2 <= last < |fat| && fat[last] != 0 && 2 <= next < |fat|
      modifies this`fat, this`disk, this`failed, this`budget, this`trace
      ensures Valid() && ok == !failed && TraceSetting(old(trace), trace, g.kind, old(disk), last, next, disk)
      ensures ok ==> disk == old(disk).(fat := old(disk.fat)[last := next])
    {
      LinkUsed(fat, last, next);
      ok := Set(last, next);
    }

    /**
      Extends a directory by a cluster of end markers. In every state on the way the
      directory shows the same items, or is half grown.
     */
    method Grow(dir: Dir, ch: seq<nat>, ghost foreign: set<nat>, ghost ends: set<nat>) returns (r: Option<nat>)
      requires Valid() && !failed && dir.At? && Sound(disk, g, dir, ch, foreign) && |ch| < g.dirLimit
        && (ch != [] && Straddles(g.kind, ch[|ch| - 1]) ==> ch[|ch| - 1] in ends)
      modifies this
      ensures Valid() && KeptOn(old(disk), disk, foreign)
      ensures TraceGrown(old(trace), trace, g, dir, foreign, old(Items(disk, g, ch)), ends)
      ensures r.Some? ==>
        !failed && Sound(disk, g, dir, ch + [r.value], foreign)
        && Slots(disk, ch + [r.value]) == old(Slots(disk, ch)) + ZeroSlots(g.per)
      ensures r.Some? ==>
        Records(Slots(disk, ch + [r.value]), g.kind) == old(Records(Slots(disk, ch), g.kind))
        && Showing(disk, g, dir, foreign, old(Items(disk, g, ch)))
      ensures r.Some? ==> FewerFree(old(disk.fat), disk.fat) && r.value < |old(disk.fat)| && old(disk.fat)[r.value] == 0
      ensures r.None? && !failed ==> disk == old(disk) && Zeros(disk.fat) == {}
      ensures r.Some? ==> FatOnly(old(disk.fat), disk.fat, Members(ch + [r.value]))
    {
      ghost var d, start, xs := disk, trace, Items(disk, g, ch);
      var a, off := FreshCluster();
      FreeWrites(start, trace, d, disk, off, g, dir, ch, foreign);
      if a.None? {
        ShowGrown(start, trace, g, dir, foreign, xs, ends);
        return None;
      }
      var next := a.value;
      LastUsed(g.kind, d.fat, dir, ch);
      LastUsed(g.kind, disk.fat, dir, ch);
      var last := ch[|ch| - 1];
      ghost var before, t, u := trace, disk, disk.(fat := disk.fat[last := next]);
      var ok := LinkTo(last, next);
      GrowShows(d, u, g, dir, ch, foreign, last, next);
      GrowTrace(start, before, trace, t, disk, g, dir, ch, foreign, last, next, ends);
      SettingKept(before, trace, g.kind, d, t, last, next, disk, foreign);
      if !ok { return None; }
      r := Some(next);
    }

    /** A new chain of one cluster, filled with end markers. */
    method FreshCluster() returns (r: Option<nat>, ghost off: set<nat>)
      requires Valid() && !failed
      modifies this
      ensures Valid() && AllFreeClusters(old(disk.fat), off) && OffOnly(old(disk), disk, off)
        && TraceOff(old(trace), trace, old(disk), off)
      ensures r.Some? ==>
        !failed && off == {r.value} && 2 <= r.value < |disk.fat| && IsEof(g.kind, disk.fat[r.value])
        && !IsEof(g.kind, r.value) && disk.area[r.value] == ZeroSlots(g.per)
      ensures r.None? && !failed ==> disk == old(disk) && Zeros(disk.fat) == {}
    {
      ghost var d, start := disk, trace;
      var a: Option<seq<nat>>;
      a, off := Allocate(1);
      if a.None? { return None, off; }
      var c := a.value[0];
      var ok := WriteCluster(c, ZeroSlots(g.per), d, start, off);
      if !ok { return None, off; }
      r := Some(c);
    }

    /** Grows a directory that still shows what it showed in `d`. */
    method GrowListing(dir: Dir, ch: seq<nat>, ghost chain: seq<nat>, ghost d: Disk, ghost start: seq<Disk>,
        ghost foreign: set<nat>, ghost ends: set<nat>) returns (next: Option<nat>)
      requires Valid() && !failed && dir.At? && SameListing(d, disk, g, dir, chain, ch, foreign)
        && TraceGrown(start, trace, g, dir, foreign, Items(d, g, chain), ends)
      requires |ch| < g.dirLimit && FewerFree(d.fat, disk.fat) && Breakable(g, disk.fat, dir, ch) <= ends
      modifies this
      ensures Valid() && TraceGrown(start, trace, g, dir, foreign, Items(d, g, chain), ends) && KeptOn(d, disk, foreign)
      ensures next.Some? ==>
        !failed && SameListing(d, disk, g, dir, chain, ch + [next.value], foreign)
        && Slots(disk, ch + [next.value]) == old(Slots(disk, ch)) + ZeroSlots(g.per)
      ensures next.Some? ==> FewerFree(d.fat, disk.fat) && Breakable(g, disk.fat, dir, ch + [next.value]) <= ends
      ensures next.None? && !failed ==> disk == old(disk) && Zeros(disk.fat) == {}
      ensures next.Some? ==> FatOnly(old(disk.fat), disk.fat, Members(ch + [next.value]))
    {
      ghost var t, mid := disk, trace;
      LastBreakable(g, disk.fat, dir, ch);
      next := Grow(dir, ch, foreign, ends);
      TraceGrownJoin(start, mid, trace, g, dir, foreign, Items(d, g, chain), ends);
      KeptTrans(d, t, disk, foreign);
      if next.Some? {
        BreakableGrown(g, t.fat, disk.fat, dir, ch, ch + [next.value], next.value);
        GrownListing(d, t, disk, g, dir, chain, ch, ch + [next.value], foreign, ZeroSlots(g.per));
      }
    }

    /** Room for `n` more slots in a directory, which grows if it has none and can. */
    method MakeRoom(dir: Dir, chain: seq<nat>, slots: seq<Slot>, n: nat, ghost foreign: set<nat>)
        returns (r: Option<nat>, ch: seq<nat>, data: seq<Slot>)
      requires Valid() && !failed && n > 0 && WellKept(disk, g, dir, chain, foreign) && slots == Slots(disk, chain)
      modifies this
      ensures Valid()
        && TraceGrown(old(trace), trace, g, dir, foreign, old(Items(disk, g, chain)),
        old(Breakable(g, disk.fat, dir, chain)))
      ensures KeptOn(old(disk), disk, foreign)
      ensures !failed ==> SameListing(old(disk), disk, g, dir, chain, ch, foreign) && data == Slots(disk, ch)
      ensures r.Some? ==> !failed && FreeRun(data, End(data), r.value, n)
      ensures r.None? && !failed ==> Cramped(disk, g, dir, n)
      ensures !failed ==> FatOnly(old(disk.fat), disk.fat, Members(ch))
    {
      ghost var d, start, ends := disk, trace, Breakable(g, disk.fat, dir, chain);
      ch, data := chain, slots;
      r := FreeSlots(data, n);
      while r.None? && dir.At? && 32 * (|data| + g.per) <= MAX_METADATA
        invariant Valid() && !failed && SameListing(d, disk, g, dir, chain, ch, foreign) && data == Slots(disk, ch)
        invariant FewerFree(d.fat, disk.fat) && Breakable(g, disk.fat, dir, ch) <= ends
          && FatOnly(d.fat, disk.fat, Members(ch))
        invariant TraceGrown(start, trace, g, dir, foreign, Items(d, g, chain), ends)
          && (if r.Some? then FreeRun(data, End(data), r.value, n) else NoRun(data, n))
        decreases MAX_METADATA - 32 * |data|
      {
        RoomInLimit(disk, g, dir, ch);
        ghost var before := disk.fat;
        var next := GrowListing(dir, ch, chain, d, start, foreign, ends);
        if next.None? { return; }
        FatOnlyThen(d.fat, before, disk.fat, Members(ch), Members(ch + [next.value]), Members(ch + [next.value]));
        ch, data := ch + [next.value], data + ZeroSlots(g.per);
        r := FreeSlots(data, n);
      }
    }

    /** The record a name means, by name or by alias. */
    method Find(rs: seq<Record>, name: Name) returns (r: Option<nat>)
      ensures r.Some? ==> r.value < |rs| && Matches(rs[r.value], name)
      ensures forall i :: 0 <= i < |rs| && Matches(rs[i], name) ==> r.Some? && r.value <= i
    {
      for i := 0 to |rs|
        invariant forall j :: 0 <= j < i ==> !Matches(rs[j], name)
      {
        if Matches(rs[i], name) { return Some(i); }
      }
      r := None;
    }

    /** The directory, a short name for a new entry that it can take, and the entry's slots. */
    method Prepare(dir: Dir, name: Name, first: nat, size: nat, attr: byte)
        returns (r: Option<(seq<nat>, seq<Slot>, Short)>, es: seq<Slot>)
      requires Core()
      ensures r.Some? ==>
        && !failed && ValidName(name) && DirChain(g.kind, disk.fat, dir) == Some(r.value.0)
        && r.value.1 == Slots(disk, r.value.0)
        && Chosen(name, Records(r.value.1, g.kind), r.value.2) && forall i :: 0 <= i < |Records(r.value.1, g.kind)| ==>
          !Matches(Records(r.value.1, g.kind)[i], name)
      ensures r.Some? ==> ValidName(name) && es == EntrySet(name, r.value.2, first, size, attr, g.kind)
      ensures r.None? && !failed && ValidName(name) && Loads(disk, g, dir) ==>
        Named(Records(Slots(disk, DirChain(g.kind, disk.fat, dir).value), g.kind), name)
    {
      r, es := None, [];
      if !ValidName(name) { return; }
      var loaded := LoadDir(dir);
      if loaded.None? { return; }
      var existing := ReadRecords(loaded.value.1, g.kind);
      var found := Find(existing, name);
      if found.Some? { return; }
      var short := ShortName(name, existing);
      // a directory the driver loads never holds enough records to use up the numbers
      LoadedFits(disk, g, dir, loaded.value.0);
      es := WriteEntrySet(name, short.value, first, size, attr, g.kind);
      r := Some((loaded.value.0, loaded.value.1, short.value));
    }

    /**
      Adds an entry to a directory, growing it if need be. In every state on the way
      the directory shows its old items, or those and the new one, or is half grown.
     */
    method Insert(dir: Dir, name: Name, first: nat, size: nat, attr: byte, ghost chain: seq<nat>,
        ghost foreign: set<nat>, ghost own: set<nat>, ghost cs: seq<nat>) returns (ok: bool, ghost ys: seq<Item>)
      requires Valid() && WellKept(disk, g, dir, chain, foreign + own) && foreign !! own
      requires Text(name) && 0xffff !in Units(name) && GoodAttr(attr) && Fits(first, size, g.kind)
      requires Chain(g.kind, disk.fat, first) == Some(cs) && (forall i :: 0 <= i < |cs| ==> cs[i] in own)
        && (!IsDir(attr) ==> size <= 32 * Pos(|cs|, g.per))
      modifies this
      ensures Valid() && KeptOn(old(disk), disk, foreign + own)
      ensures TraceAdding(old(trace), trace, g, dir, foreign, old(Items(disk, g, chain)), ys,
        old(Breakable(g, disk.fat, dir, chain)))
      ensures ys == old(Items(disk, g, chain))
        || Added(old(Items(disk, g, chain)), ys, name, attr, size, old(Content(disk, first, g.kind)))
      ensures ok ==>
        !failed && Added(old(Items(disk, g, chain)), ys, name, attr, size, old(Content(disk, first, g.kind)))
      ensures ok ==>
        DirChain(g.kind, disk.fat, dir).Some? && WellKept(disk, g, dir, DirChain(g.kind, disk.fat, dir).value, foreign)
        && Showing(disk, g, dir, foreign, ys) && Entered(disk, g, dir, name, attr, first, size)
      ensures !ok && !failed ==> Unchanged(old(disk), disk, g, dir, chain, foreign + own)
      ensures old(failed) ==> failed && disk == old(disk) && trace == old(trace)
      ensures !ok && !failed && old(Addable(disk, g, dir, chain, name)) ==> Crowded(disk, g, dir)
      ensures !failed ==> NoneLost(old(disk), disk, g, dir)
    {
      ok, ys := false, Items(disk, g, chain);
      var ready, es := Prepare(dir, name, first, size, attr);
      if ready.None? { return; }
      ok, ys := InsertPrepared(dir, ready.value.0, ready.value.1, es, Entry(name, ready.value.2, first, size, attr),
        foreign, own, cs);
    }

    /** Room for an entry's slots, and the slots written there. */
    method InsertPrepared(dir: Dir, chain: seq<nat>, slots: seq<Slot>, es: seq<Slot>, ghost x: Entry,
        ghost foreign: set<nat>, ghost own: set<nat>, ghost cs: seq<nat>) returns (ok: bool, ghost ys: seq<Item>)
      requires Valid() && !failed && WellKept(disk, g, dir, chain, foreign + own) && foreign !! own
        && slots == Slots(disk, chain)
      requires Insertable(disk, g, Records(slots, g.kind), x, cs, own) && es == SlotsOf(x, g.kind)
      modifies this
      ensures Valid() && KeptOn(old(disk), disk, foreign + own)
      ensures TraceAdding(old(trace), trace, g, dir, foreign, old(Items(disk, g, chain)), ys,
        old(Breakable(g, disk.fat, dir, chain)))
      ensures ys == old(Items(disk, g, chain))
        || Added(old(Items(disk, g, chain)), ys, x.name, x.attr, x.size, old(Content(disk, x.first, g.kind)))
      ensures ok ==>
        !failed && Added(old(Items(disk, g, chain)), ys, x.name, x.attr, x.size, old(Content(disk, x.first, g.kind)))
      ensures ok ==>
        DirChain(g.kind, disk.fat, dir).Some? && WellKept(disk, g, dir, DirChain(g.kind, disk.fat, dir).value, foreign)
        && Showing(disk, g, dir, foreign, ys) && Entered(disk, g, dir, x.name, x.attr, x.first, x.size)
      ensures !ok && !failed ==> Unchanged(old(disk), disk, g, dir, chain, foreign + own) && Crowded(disk, g, dir)
      ensures !failed ==> NoneLost(old(disk), disk, g, dir)
    {
      ghost var d, start, xs, ends := disk, trace, Items(disk, g, chain), Breakable(g, disk.fat, dir, chain);
      ok, ys := false, xs;
      var a, ch, data := MakeRoom(dir, chain, slots, |es|, foreign + own);
      if a.None? {
        NoRoom(d, start, disk, trace, g, dir, chain, ch, foreign + own, foreign, |es|, failed);
        return;
      }
      RoomFound(d, disk, g, dir, chain, ch, foreign, own, cs, a.value, x);
      ok, ys := PutGrown(dir, d, start, ends, ch, data, a.value, es, x, foreign, own, cs);
    }

    /** The slots of an entry, in a directory that had to grow for them since state `d`. */
    method PutGrown(dir: Dir, ghost d: Disk, ghost start: seq<Disk>, ghost ends: set<nat>, ch: seq<nat>,
        data: seq<Slot>, a: nat, es: seq<Slot>, ghost x: Entry, ghost foreign: set<nat>, ghost own: set<nat>,
        ghost cs: seq<nat>) returns (ok: bool, ghost ys: seq<Item>)
      requires Valid() && !failed && data == Slots(disk, ch) && Inserts(disk, g, dir, ch, foreign, own, cs, a, x)
        && es == SlotsOf(x, g.kind)
      requires KeptOn(d, disk, foreign + own)
        && TraceGrown(start, trace, g, dir, foreign + own, Items(disk, g, ch), ends)
      modifies this`disk, this`failed, this`budget, this`trace
      ensures Valid() && ok == !failed && KeptOn(d, disk, foreign + own)
      ensures TraceAdding(start, trace, g, dir, foreign, old(Items(disk, g, ch)), ys, ends)
      ensures Added(old(Items(disk, g, ch)), ys, x.name, x.attr, x.size, old(Content(disk, x.first, g.kind)))
      ensures ok ==>
        DirChain(g.kind, disk.fat, dir) == Some(ch) && WellKept(disk, g, dir, ch, foreign)
        && Showing(disk, g, dir, foreign, ys) && Entered(disk, g, dir, x.name, x.attr, x.first, x.size)
      ensures disk.fat == old(disk.fat)
    {
      ghost var t, mid := disk, trace;
      ys := After(t, g, ch, a, x);
      ok := PutEntry(dir, ch, data, a, es, x, foreign, own, cs);
      AddingGrown(start, mid, trace, g, dir, foreign + own, foreign, Items(t, g, ch), ys, ends);
      KeptTrans(d, t, disk, foreign + own);
    }

    /** Writes the slots of an entry into a run of free ones. */
    method PutEntry(dir: Dir, ch: seq<nat>, data: seq<Slot>, a: nat, es: seq<Slot>, ghost x: Entry,
        ghost foreign: set<nat>, ghost own: set<nat>, ghost cs: seq<nat>) returns (ok: bool)
      requires Valid() && !failed && data == Slots(disk, ch) && Inserts(disk, g, dir, ch, foreign, own, cs, a, x)
        && es == SlotsOf(x, g.kind)
      modifies this`disk, this`failed, this`budget, this`trace
      ensures Valid() && ok == !failed && KeptOn(old(disk), disk, foreign + own)
      ensures TraceEither(old(trace), trace, g, dir, foreign, old(Items(disk, g, ch)), old(After(disk, g, ch, a, x)))
      ensures Added(old(Items(disk, g, ch)), old(After(disk, g, ch, a, x)), x.name, x.attr, x.size,
        old(Content(disk, x.first, g.kind)))
      ensures ok ==>
        DirChain(g.kind, disk.fat, dir) == Some(ch) && WellKept(disk, g, dir, ch, foreign)
        && Showing(disk, g, dir, foreign, old(After(disk, g, ch, a, x)))
        && Entered(disk, g, dir, x.name, x.attr, x.first, x.size)
      ensures disk.fat == old(disk.fat)
    {
      ghost var t, mid := disk, trace;
      AfterAdded(t, g, dir, ch, foreign, own, cs, a, x);
      StartsAtEnd(data, a, |es|);
      ok := PutEntries(dir, ch, data, a, es);
      InsertTrace(mid, trace, t, g, dir, ch, foreign, own, cs, a, x);
      InsertingKept(t, disk, g, dir, ch, foreign + own, a, es);
      if ok {
        InsertState(t, disk, g, dir, ch, foreign, own, cs, a, x, |es|);
        InsertKeeps(t, g, dir, ch, foreign, own, cs, a, x, disk);
        InsertEnters(t, g, dir, ch, foreign, own, cs, a, x, disk);
      }
    }

    /** Frees a chain that no entry names; nothing shows. */
    method Abandon(dir: Dir, first: nat, ghost chain: seq<nat>, ghost foreign: set<nat>, ghost own: set<nat>,
        ghost cs: seq<nat>)
      requires Valid() && !failed && WellKept(disk, g, dir, chain, foreign + own) && foreign !! own
      requires Chain(g.kind, disk.fat, first) == Some(cs) && forall i :: 0 <= i < |cs| ==> cs[i] in own
      modifies this
      ensures Valid() && TraceShow(old(trace), trace, g, dir, foreign, old(Items(disk, g, chain)))
        && SameListing(old(disk), disk, g, dir, chain, chain, foreign)
      ensures OffOnly(old(disk), disk, Members(cs))
      ensures !failed && |cs| <= g.fileLimit ==> Freed(disk.fat, cs)
    {
      ghost var d, start := disk, trace;
      var _ := Free(first);
      Abandoned(start, trace, d, disk, cs, g, dir, chain, foreign, own);
    }

    /** Publishes a chain under a new name, or gives it up. */
    method Publish(dir: Dir, name: Name, first: nat, size: nat, attr: byte, ghost chain: seq<nat>,
        ghost foreign: set<nat>, ghost own: set<nat>, ghost cs: seq<nat>) returns (ok: bool, ghost ys: seq<Item>,
        ghost at: nat)
      requires Valid() && !failed && WellKept(disk, g, dir, chain, foreign + own) && foreign !! own
      requires Text(name) && 0xffff !in Units(name) && GoodAttr(attr) && Fits(first, size, g.kind)
      requires Chain(g.kind, disk.fat, first) == Some(cs) && (forall i :: 0 <= i < |cs| ==> cs[i] in own)
        && (!IsDir(attr) ==> size <= 32 * Pos(|cs|, g.per))
      modifies this
      ensures Valid()
      ensures Outcome(old(disk), old(trace), disk, trace, g, dir, chain, foreign, ys, ok, failed)
      ensures ys == old(Items(disk, g, chain))
        || Added(old(Items(disk, g, chain)), ys, name, attr, size, old(Content(disk, first, g.kind)))
      ensures ok ==>
        Added(old(Items(disk, g, chain)), ys, name, attr, size, old(Content(disk, first, g.kind)))
        && Entered(disk, g, dir, name, attr, first, size) && KeptOn(old(disk), disk, foreign + own)
        && NoneLost(old(disk), disk, g, dir)
      ensures !ok && !failed && old(Addable(disk, g, dir, chain, name)) ==> CrowdedAt(old(trace), trace, at, g, dir)
      ensures !ok && !failed ==>
        NoneLostBut(old(disk), disk, g, dir, cs) && (|cs| <= g.fileLimit ==> Freed(disk.fat, cs))
    {
      ghost var d, start, ends := disk, trace, Breakable(g, disk.fat, dir, chain);
      ok, ys := Insert(dir, name, first, size, attr, chain, foreign, own, cs);
      at := |trace| - 1;
      if ok || failed {
        Inserted(d, start, disk, trace, g, dir, chain, foreign, own, ys, ok, failed);
        return;
      }
      GiveUp(dir, first, d, start, chain, foreign, own, cs, ys, ends, at);
    }

    /** Frees the chain of an entry that could not be inserted. */
    method GiveUp(dir: Dir, first: nat, ghost d: Disk, ghost start: seq<Disk>, ghost chain: seq<nat>,
        ghost foreign: set<nat>, ghost own: set<nat>, ghost cs: seq<nat>, ghost ys: seq<Item>, ghost ends: set<nat>,
        ghost at: nat)
      requires Valid() && !failed && Unchanged(d, disk, g, dir, chain, foreign + own) && foreign !! own
      requires Chain(g.kind, d.fat, first) == Some(cs) && forall i :: 0 <= i < |cs| ==> cs[i] in own
      requires at == |trace| - 1 && NoneLost(d, disk, g, dir) && ends == Breakable(g, d.fat, dir, chain)
      requires TraceAdding(start, trace, g, dir, foreign, Items(d, g, chain), ys, ends)
      modifies this
      ensures Valid() && Outcome(d, start, disk, trace, g, dir, chain, foreign, ys, false, failed)
      ensures old(Crowded(disk, g, dir)) ==> CrowdedAt(start, trace, at, g, dir)
      ensures !failed ==> NoneLostBut(d, disk, g, dir, cs) && (|cs| <= g.fileLimit ==> Freed(disk.fat, cs))
    {
      ghost var t, mid, ch := disk, trace, DirChain(g.kind, disk.fat, dir).value;
      KeptLess(d, t, foreign + own, own);
      KeptChain(d, t, own, first, cs, g.kind);
      Abandon(dir, first, ch, foreign, own, cs);
      FatOnlyThen(d.fat, t.fat, disk.fat, Members(ch), Members(cs), Members(ch) + Members(cs));
      SameListingLess(d, t, g, dir, chain, ch, foreign, own);
      SameListingTrans(d, t, disk, g, dir, chain, ch, ch, foreign);
      TraceAddingThen(start, mid, trace, g, dir, foreign, Items(d, g, chain), ys, ends);
      CrowdedNow(start, mid, t, g, dir);
      CrowdedLater(start, mid, trace, at, g, dir);
    }

    /** Writes data to a chain of its own that no entry names yet; nothing shows. */
    method Stage(dir: Dir, data: seq<byte>, ghost chain: seq<nat>, ghost foreign: set<nat>)
        returns (r: Option<nat>, ghost cs: seq<nat>, ghost own: set<nat>)
      requires Valid() && !failed && WellKept(disk, g, dir, chain, foreign)
      modifies this
      ensures Valid() && KeptOn(old(disk), disk, foreign)
      ensures TraceShow(old(trace), trace, g, dir, foreign, old(Items(disk, g, chain)))
      ensures r.Some? ==>
        !failed && WellKept(disk, g, dir, chain, foreign + own) && foreign !! own
        && SameListing(old(disk), disk, g, dir, chain, chain, foreign)
      ensures r.Some? ==> Chain(g.kind, disk.fat, r.value) == Some(cs) && (forall i :: 0 <= i < |cs| ==> cs[i] in own)
      ensures r.Some? ==>
        Holds(g, Content(disk, r.value, g.kind), data) && |data| <= 32 * Pos(|cs|, g.per)
        && Fits(r.value, |data|, g.kind) && FewerFree(old(disk.fat), disk.fat)
      ensures r.None? && !failed ==> disk == old(disk) && NoFit(old(fat), g, |data|)
      ensures r.Some? ==>
        own == Members(cs) && AllFreeClusters(old(disk.fat), own) && FatOnly(old(disk.fat), disk.fat, own)
        && |cs| <= g.fileLimit
    {
      ghost var d, start := disk, trace;
      r, cs, own := WriteData(data);
      FreeWrites(start, trace, d, disk, own, g, dir, chain, foreign);
      if r.None? { return; }
      Adopt(d, disk, g, dir, chain, foreign, own);
      PackHolds(disk, r.value, cs, data, g);
      TakenFewer(d, disk, own);
      ChainBound(g.kind, disk.fat, r.value, cs);
      SizesFit(g.kind, r.value, |fat|, |data|);
    }

    /** Publishes a file's chain under a new name, or gives it up. */
    method PublishFile(dir: Dir, name: Name, first: nat, data: seq<byte>, ghost chain: seq<nat>,
        ghost foreign: set<nat>, ghost own: set<nat>, ghost cs: seq<nat>) returns (ok: bool, ghost ys: seq<Item>,
        ghost at: nat)
      requires Valid() && !failed && WellKept(disk, g, dir, chain, foreign + own) && foreign !! own && Text(name)
        && 0xffff !in Units(name)
      requires Chain(g.kind, disk.fat, first) == Some(cs) && (forall i :: 0 <= i < |cs| ==> cs[i] in own)
        && |cs| <= g.fileLimit
      requires Holds(g, Content(disk, first, g.kind), data) && |data| <= 32 * Pos(|cs|, g.per)
        && Fits(first, |data|, g.kind)
      modifies this
      ensures Valid()
      ensures Outcome(old(disk), old(trace), disk, trace, g, dir, chain, foreign, ys, ok, failed)
      ensures MaybeFile(g, old(Items(disk, g, chain)), ys, name, data)
        && (ok ==> AddedFile(g, old(Items(disk, g, chain)), ys, name, data))
      ensures !ok && !failed && old(Addable(disk, g, dir, chain, name)) ==> CrowdedAt(old(trace), trace, at, g, dir)
      ensures ok ==>
        Entered(disk, g, dir, name, ARCHIVE, first, |data|) && KeptOn(old(disk), disk, foreign + own)
        && NoneLost(old(disk), disk, g, dir)
      ensures !ok && !failed ==> NoneLostBut(old(disk), disk, g, dir, cs) && Freed(disk.fat, cs)
    {
      ghost var xs, content := Items(disk, g, chain), Content(disk, first, g.kind);
      ok, ys, at := Publish(dir, name, first, |data|, ARCHIVE, chain, foreign, own, cs);
      assert Added(xs, ys, name, ARCHIVE, |data|, content) ==> AddedFile(g, xs, ys, name, data);
    }

    /** Writes a file's data, then its entry. */
    method AddFile(dir: Dir, name: Name, data: seq<byte>, ghost chain: seq<nat>, ghost foreign: set<nat>)
        returns (ok: bool, ghost ys: seq<Item>, ghost at: nat)
      requires Valid() && !failed && WellKept(disk, g, dir, chain, foreign) && Text(name) && 0xffff !in Units(name)
      modifies this
      ensures Valid()
      ensures Outcome(old(disk), old(trace), disk, trace, g, dir, chain, foreign, ys, ok, failed)
      ensures MaybeFile(g, old(Items(disk, g, chain)), ys, name, data)
        && (ok ==> AddedFile(g, old(Items(disk, g, chain)), ys, name, data))
      ensures !ok && !failed && old(Addable(disk, g, dir, chain, name)) ==>
        NoFit(old(fat), g, |data|) || CrowdedAt(old(trace), trace, at, g, dir)
      ensures ok ==> Spent(old(disk), disk, g, dir, name, 0x20, |data|)
      ensures !ok && !failed ==> NoneLost(old(disk), disk, g, dir)
    {
      ghost var d, start, xs := disk, trace, Items(disk, g, chain);
      ok, ys, at := false, xs, 0;
      var first, cs, own := Stage(dir, data, chain, foreign);
      if first.None? {
        StagedNot(d, start, disk, trace, g, dir, chain, foreign, failed);
        if !failed { StillThere(d, g, dir, chain, foreign); }
        return;
      }
      ghost var t, mid := disk, trace;
      ok, ys, at := PublishFile(dir, name, first.value, data, chain, foreign, own, cs);
      AddDone(d, start, t, mid, disk, trace, g, dir, chain, foreign, foreign + own, ys, ok, failed, name, at, ARCHIVE,
        |data|, first.value, cs);
    }

    /**
      create: a new file. In every state on the way the directory shows its old items,
      or those and the complete file, or is half grown.
     */
    method Create(dir: Dir, name: Name, data: seq<byte>, ghost chain: seq<nat>, ghost foreign: set<nat>)
        returns (ok: bool, ghost ys: seq<Item>, ghost at: nat)
      requires Valid() && LoadsKept(disk, g, dir, chain, foreign) && Text(name) && 0xffff !in Units(name)
      modifies this
      ensures Valid()
      ensures old(Loads(disk, g, dir)) ==>
        Outcome(old(disk), old(trace), disk, trace, g, dir, chain, foreign, ys, ok, failed)
      ensures old(failed || !Addable(disk, g, dir, chain, name)) ==> !ok && disk == old(disk) && trace == old(trace)
      ensures MaybeFile(g, old(Items(disk, g, chain)), ys, name, data)
        && (ok ==> AddedFile(g, old(Items(disk, g, chain)), ys, name, data))
      ensures !ok && !failed && old(Addable(disk, g, dir, chain, name)) ==>
        NoFit(old(fat), g, |data|) || CrowdedAt(old(trace), trace, at, g, dir)
      ensures ok ==> Spent(old(disk), disk, g, dir, name, 0x20, |data|)
      ensures !ok && !failed && old(Loads(disk, g, dir)) ==> NoneLost(old(disk), disk, g, dir)
    {
      ghost var d, start := disk, trace;
      ok, ys, at := false, Items(disk, g, chain), 0;
      var free := Vacant(dir, name);
      if !free {
        if Loads(disk, g, dir) { StagedNot(d, start, disk, trace, g, dir, chain, foreign, failed); }
        return;
      }
      ok, ys, at := AddFile(dir, name, data, chain, foreign);
    }

    /**
      The checks before anything is written: a working device, a valid name, a directory that
      loads and does not have the name.
     */
    method Vacant(dir: Dir, name: Name) returns (free: bool)
      requires Core()
      ensures free ==> !failed && Loads(disk, g, dir)
      ensures free <==>
        !failed && ValidName(name) && Loads(disk, g, dir)
        && !Named(Records(Slots(disk, DirChain(g.kind, disk.fat, dir).value), g.kind), name)
    {
      if failed || !ValidName(name) { return false; }
      var loaded := LoadDir(dir);
      if loaded.None? { return false; }
      var rs := ReadRecords(loaded.value.1, g.kind);
      var found := Find(rs, name);
      free := found.None?;
    }

    /** update: points a record to another chain and size, with one sector write. */
    method Update(dir: Dir, r: Record, first: nat, size: nat, ghost k: nat, ghost chain: seq<nat>,
        ghost foreign: set<nat>, ghost own: set<nat>, ghost cs: seq<nat>) returns (ok: bool)
      requires Valid() && Updates(disk, g, dir, chain, foreign, own, cs, k, first, size)
        && Records(Slots(disk, chain), g.kind)[k] == r
      modifies this`disk, this`failed, this`budget, this`trace
      ensures Valid() && KeptOn(old(disk), disk, foreign + own) && disk.fat == old(disk.fat)
      ensures TraceEither(old(trace), trace, g, dir, foreign, old(Items(disk, g, chain)),
        old(Updated(disk, g, chain, k, first, size)))
      ensures ok ==>
        WellKept(disk, g, dir, chain, foreign) && Items(disk, g, chain) == old(Updated(disk, g, chain, k, first, size))
      ensures ok ==>
        Chain(g.kind, disk.fat, r.cluster).Some?
        && Unnamed(disk, g, chain, foreign, Members(Chain(g.kind, disk.fat, r.cluster).value))
      ensures ok == !failed
      ensures ok ==> EntryIs(disk, g, chain, k, first)
    {
      ghost var d, start := disk, trace;
      var loaded := LoadDir(dir);
      if loaded.None? { return false; }
      var ch, data := loaded.value.0, loaded.value.1;
      RecordSlot(data, k, g.kind);
      if data[r.offset][..11] != r.short { return false; }
      ok := StoreDir(dir, ch, data[r.offset := Rewritten(data[r.offset], first, size, g.kind)], r.offset, 1);
      UpdateTrace(start, trace, d, g, dir, chain, foreign, own, cs, k, first, size, r.offset);
      InPlaceKept(d, disk, g, dir, chain, foreign + own);
      if ok { UpdateDoneShows(d, disk, g, dir, chain, foreign, own, cs, k, first, size, r.offset); }
    }

    /** Frees the chain a record has given up; the directory goes on showing what it shows. */
    method Release(dir: Dir, first: nat, ghost chain: seq<nat>, ghost foreign: set<nat>) returns (ok: bool)
      requires Valid() && !failed && WellKept(disk, g, dir, chain, foreign)
      requires Chain(g.kind, disk.fat, first).Some?
        && Unnamed(disk, g, chain, foreign, Members(Chain(g.kind, disk.fat, first).value))
      modifies this
      ensures Valid() && (ok ==> !failed)
        && (!ok ==> failed || (ChainUpTo(g.kind, old(fat), first, g.fileLimit).None? && fat == old(fat)))
      ensures TraceShow(old(trace), trace, g, dir, foreign, old(Items(disk, g, chain)))
        && SameListing(old(disk), disk, g, dir, chain, chain, foreign)
      ensures var cs := Chain(g.kind, old(disk.fat), first).value;
        FatOnly(old(disk.fat), disk.fat, Members(cs)) && (ok ==> Freed(disk.fat, cs))
    {
      ghost var d, start, off := disk, trace, Members(Chain(g.kind, disk.fat, first).value);
      ok := Free(first);
      Released(start, trace, d, disk, off, g, dir, chain, foreign);
    }

    /** Gives record `k` new contents: data first, then the entry, then the old chain is freed. */
    method ReplaceFile(dir: Dir, r: Record, data: seq<byte>, ghost k: nat, ghost chain: seq<nat>,
        ghost foreign: set<nat>) returns (ok: bool, ghost ys: seq<Item>)
      requires Valid() && !failed && WellKept(disk, g, dir, chain, foreign)
      requires k < |Records(Slots(disk, chain), g.kind)| && Records(Slots(disk, chain), g.kind)[k] == r
        && !IsDir(r.attr)
      modifies this
      ensures Valid() && KeptOn(old(disk), disk, foreign)
      ensures TraceEither(old(trace), trace, g, dir, foreign, old(Items(disk, g, chain)), ys)
      ensures ys == old(Items(disk, g, chain)) || Replaced1(g, old(Items(disk, g, chain)), ys, k, data)
      ensures ok ==>
        !failed && Replaced1(g, old(Items(disk, g, chain)), ys, k, data) && Showing(disk, g, dir, foreign, ys)
      ensures !failed ==> DirChain(g.kind, disk.fat, dir) == Some(chain) && WellKept(disk, g, dir, chain, foreign)
      ensures !ok && !failed ==> NoFit(old(fat), g, |data|) || ChainUpTo(g.kind, fat, r.cluster, g.fileLimit).None?
      ensures ok ==> Exchanged(old(disk), disk, g, chain, k)
    {
      ghost var d, start, xs := disk, trace, Items(disk, g, chain);
      ok, ys := false, xs;
      var first, cs, own := Stage(dir, data, chain, foreign);
      if first.None? { return; }
      ghost var t, mid := disk, trace;
      ghost var was := ChainStays(d, t, g, dir, chain, foreign, k, r, cs);
      ys := Updated(t, g, chain, k, first.value, |data|);
      ok := Replace(dir, r, first.value, |data|, k, chain, foreign, own, cs);
      if ok { ChainsExchanged(d, t, disk, g, chain, k, r, first.value, cs, was); }
      KeptTrans(d, t, disk, foreign);
      TraceEitherJoin(start, mid, trace, g, dir, foreign, xs, ys);
    }

    /**
      Points record `k` to a staged chain, then frees the chain it gave up. In a directory
      that loads the update fails only with the device, so the staged chain is never given up.
     */
    method Replace(dir: Dir, r: Record, first: nat, size: nat, ghost k: nat, ghost chain: seq<nat>,
        ghost foreign: set<nat>, ghost own: set<nat>, ghost cs: seq<nat>) returns (ok: bool)
      requires Valid() && !failed && Updates(disk, g, dir, chain, foreign, own, cs, k, first, size)
        && Records(Slots(disk, chain), g.kind)[k] == r
      modifies this
      ensures Valid() && KeptOn(old(disk), disk, foreign)
      ensures TraceEither(old(trace), trace, g, dir, foreign, old(Items(disk, g, chain)),
        old(Updated(disk, g, chain, k, first, size)))
      ensures ok ==> !failed && Showing(disk, g, dir, foreign, old(Updated(disk, g, chain, k, first, size)))
      ensures !failed ==> DirChain(g.kind, disk.fat, dir) == Some(chain) && WellKept(disk, g, dir, chain, foreign)
      ensures !ok && !failed ==> ChainUpTo(g.kind, fat, r.cluster, g.fileLimit).None?
      ensures ok ==>
        EntryIs(disk, g, chain, k, first) && Chain(g.kind, old(disk.fat), r.cluster).Some?
        && Given(old(disk.fat), disk.fat, Chain(g.kind, old(disk.fat), r.cluster).value)
    {
      ghost var t, mid, xs, ys := disk, trace, Items(disk, g, chain), Updated(disk, g, chain, k, first, size);
      ok := Update(dir, r, first, size, k, chain, foreign, own, cs);
      KeptLess(t, disk, foreign + own, foreign);
      if !ok { return; }
      ghost var u, last := disk, trace;
      ok := Release(dir, r.cluster, chain, foreign);
      TraceEitherThen(mid, last, trace, g, dir, foreign, xs, ys, ys);
      KeptTrans(t, u, disk, foreign);
    }

    /**
      overwrite: a file's contents replaced, or a new file. In every state on the way the
      directory shows the complete old contents or the complete new ones, or is half grown.
     */
    method Overwrite(dir: Dir, name: Name, data: seq<byte>, ghost chain: seq<nat>, ghost foreign: set<nat>)
        returns (ok: bool, ghost ys: seq<Item>, ghost at: nat, ghost k: nat)
      requires Valid() && LoadsKept(disk, g, dir, chain, foreign) && Text(name) && 0xffff !in Units(name)
      modifies this
      ensures Valid() && KeptOn(old(disk), disk, foreign)
      ensures TraceAdding(old(trace), trace, g, dir, foreign, old(Items(disk, g, chain)), ys,
        old(Breakable(g, disk.fat, dir, chain)))
      ensures MaybeFile(g, old(Items(disk, g, chain)), ys, name, data)
        || MaybeReplaced(g, old(Items(disk, g, chain)), ys, k, name, data)
      ensures old(Named(Records(Slots(disk, chain), g.kind), name)) ==>
        MaybeReplaced(g, old(Items(disk, g, chain)), ys, k, name, data)
          && TraceEither(old(trace), trace, g, dir, foreign, old(Items(disk, g, chain)), ys)
      ensures ok ==> !failed && Shown(disk, g, dir, foreign, ys)
      ensures ok ==>
        AddedFile(g, old(Items(disk, g, chain)), ys, name, data)
        || (Replaced1(g, old(Items(disk, g, chain)), ys, k, data) && Means(old(Items(disk, g, chain))[k], name))
      ensures old(failed || !ValidName(name) || !Loads(disk, g, dir)) ==>
        !ok && disk == old(disk) && trace == old(trace)
      ensures (ok || trace != old(trace)) && old(Named(Records(Slots(disk, chain), g.kind), name)) ==>
        old(MayReplace(Records(Slots(disk, chain), g.kind), k, name))
      ensures !failed && old(Loads(disk, g, dir)) ==>
        DirChain(g.kind, disk.fat, dir).Some? && WellKept(disk, g, dir, DirChain(g.kind, disk.fat, dir).value, foreign)
      ensures !ok && !failed && old(Addable(disk, g, dir, chain, name)) ==>
        NoFit(old(fat), g, |data|) || CrowdedAt(old(trace), trace, at, g, dir)
      ensures
        !ok && !failed && ValidName(name) && old(Loads(disk, g, dir))
        && old(Named(Records(Slots(disk, chain), g.kind), name)) ==>
          NoFit(old(fat), g, |data|) || OneUnwritable(g, fat, old(Records(Slots(disk, chain), g.kind)), name)
      ensures ok && old(Named(Records(Slots(disk, chain), g.kind), name)) ==> Exchanged(old(disk), disk, g, chain, k)
      ensures ok && !old(Named(Records(Slots(disk, chain), g.kind), name)) ==>
        Spent(old(disk), disk, g, dir, name, 0x20, |data|)
    {
      ok, ys, at, k := false, Items(disk, g, chain), 0, 0;
      if failed || !ValidName(name) { return; }
      var loaded := LoadDir(dir);
      if loaded.None? { return; }
      var rs := ReadRecords(loaded.value.1, g.kind);
      var found := Find(rs, name);
      if found.None? {
        ok, ys, at := Create(dir, name, data, chain, foreign);
      } else {
        k := found.value;
        ghost var xs, start, ends := Items(disk, g, chain), trace, Breakable(g, disk.fat, dir, chain);
        ok, ys := OverwriteAt(dir, rs[found.value], name, data, k, chain, foreign);
        EitherAdding(start, trace, g, dir, foreign, xs, ys, ends);
      }
    }

    /** The case that the name is there: a directory or a read-only file is refused. */
    method OverwriteAt(dir: Dir, r: Record, name: Name, data: seq<byte>, ghost k: nat, ghost chain: seq<nat>,
        ghost foreign: set<nat>) returns (ok: bool, ghost ys: seq<Item>)
      requires Valid() && !failed && WellKept(disk, g, dir, chain, foreign)
      requires k < |Records(Slots(disk, chain), g.kind)| && Records(Slots(disk, chain), g.kind)[k] == r
        && Matches(r, name)
      modifies this
      ensures Valid() && KeptOn(old(disk), disk, foreign)
      ensures TraceEither(old(trace), trace, g, dir, foreign, old(Items(disk, g, chain)), ys)
      ensures MaybeReplaced(g, old(Items(disk, g, chain)), ys, k, name, data)
      ensures ok ==>
        !failed && Replaced1(g, old(Items(disk, g, chain)), ys, k, data) && Means(old(Items(disk, g, chain))[k], name)
        && Showing(disk, g, dir, foreign, ys)
      ensures !failed ==> DirChain(g.kind, disk.fat, dir) == Some(chain) && WellKept(disk, g, dir, chain, foreign)
      ensures ok || trace != old(trace) ==> r.attr % 2 == 0 && r.attr / 16 % 2 == 0
      ensures !ok && !failed ==> NoFit(old(fat), g, |data|) || Unwritable(g, fat, r)
      ensures ok ==> Exchanged(old(disk), disk, g, chain, k)
    {
      ghost var xs := Items(disk, g, chain);
      ok, ys := false, xs;
      if IsDir(r.attr) || r.attr % 2 == 1 { return; }
      assert xs[k].name == r.name && xs[k].alias == r.alias;
      ok, ys := ReplaceFile(dir, r, data, k, chain, foreign);
    }

    /** Erases the slots of record `k`. */
    method Erase(dir: Dir, ch: seq<nat>, data: seq<Slot>, r: Record, ghost k: nat, ghost foreign: set<nat>)
        returns (ok: bool)
      requires Valid() && !failed && WellKept(disk, g, dir, ch, foreign) && data == Slots(disk, ch)
      requires k < |Records(data, g.kind)| && Records(data, g.kind)[k] == r
      modifies this`disk, this`failed, this`budget, this`trace
      ensures Valid() && ok == !failed && KeptOn(old(disk), disk, foreign) && disk.fat == old(disk.fat)
      ensures TraceDeleting(old(trace), trace, g, dir, foreign, old(Items(disk, g, ch)), k)
      ensures ok ==> WellKept(disk, g, dir, ch, foreign) && Items(disk, g, ch) == old(Without(Items(disk, g, ch), k))
      ensures ok ==>
        Chain(g.kind, disk.fat, r.cluster).Some?
        && Unnamed(disk, g, ch, foreign, Members(Chain(g.kind, disk.fat, r.cluster).value))
    {
      ghost var d, start := disk, trace;
      RecordSlot(data, k, g.kind);
      ok := StoreDir(dir, ch, Marked(data, r.start, r.offset + 1), r.start, r.offset + 1 - r.start);
      DeleteTrace(start, trace, d, g, dir, ch, foreign, k);
      InPlaceKept(d, disk, g, dir, ch, foreign);
      if ok { DeleteDoneShows(d, disk, g, dir, ch, foreign, k); }
    }

    /** Whether a record is a directory that may not be removed. */
    method Occupied(r: Record) returns (b: bool)
      requires Core()
      ensures !b && r.attr / 16 % 2 == 1 ==>
        !failed && Loads(disk, g, At(r.cluster, false)) && Vacated(disk, g, r.cluster)
      ensures b ==>
        r.attr / 16 % 2 == 1
        && (failed || !Loads(disk, g, At(r.cluster, false)) || !Vacated(disk, g, r.cluster))
    {
      if !IsDir(r.attr) { return false; }
      var inner := LoadDir(At(r.cluster, false));
      if inner.None? { return true; }
      var rs := ReadRecords(inner.value.1, g.kind);
      b := rs != [];
    }

    /**
      delete: a file or an empty directory is removed. In every state on the way it is
      there with its contents, under its name or its alias, or gone.
     */
    method Delete(dir: Dir, name: Name, ghost chain: seq<nat>, ghost foreign: set<nat>) returns (ok: bool, ghost k: nat)
      requires Valid() && LoadsKept(disk, g, dir, chain, foreign)
      modifies this
      ensures Valid() && KeptOn(old(disk), disk, foreign)
      ensures (trace == old(trace) && disk == old(disk))
        || (k < |old(Items(disk, g, chain))| && Means(old(Items(disk, g, chain))[k], name)
          && old(MayRemove(disk, g, chain, k, name))
          && TraceDeleting(old(trace), trace, g, dir, foreign, old(Items(disk, g, chain)), k))
      ensures ok ==>
        !failed && k < |old(Items(disk, g, chain))| && Means(old(Items(disk, g, chain))[k], name)
        && old(MayRemove(disk, g, chain, k, name)) && Items(disk, g, chain) == Without(old(Items(disk, g, chain)), k)
      ensures old(failed || !Loads(disk, g, dir)) ==> !ok && disk == old(disk) && trace == old(trace)
      ensures !failed && old(Loads(disk, g, dir)) ==> WellKept(disk, g, dir, chain, foreign)
      ensures !ok && !failed && old(Loads(disk, g, dir)) && old(Named(Records(Slots(disk, chain), g.kind), name)) ==>
        k < |old(Records(Slots(disk, chain), g.kind))| && Matches(old(Records(Slots(disk, chain), g.kind))[k], name)
          && !old(Removable(disk, g, Records(Slots(disk, chain), g.kind)[k]))
      ensures ok ==>
        var first := old(Records(Slots(disk, chain), g.kind))[k].cluster;
        Chain(g.kind, old(disk.fat), first).Some?
          && Given(old(disk.fat), disk.fat, Chain(g.kind, old(disk.fat), first).value)
    {
      ok := false;
      var ready;
      ready, k := Deletable(dir, name, chain);
      if ready.None? { return; }
      ghost var d, start, xs := disk, trace, Items(disk, g, chain);
      ok := Erase(dir, ready.value.0, ready.value.1, ready.value.2, k, foreign);
      if !ok { return; }
      ghost var t, mid := disk, trace;
      ok := Release(dir, ready.value.2.cluster, chain, foreign);
      TraceDeletingThen(start, mid, trace, g, dir, foreign, xs, k);
      KeptTrans(d, t, disk, foreign);
    }

    /** The record a name means, if it may be deleted. */
    method Deletable(dir: Dir, name: Name, ghost chain: seq<nat>)
        returns (r: Option<(seq<nat>, seq<Slot>, Record)>, ghost k: nat)
      requires Core() && (Loads(disk, g, dir) ==> DirChain(g.kind, disk.fat, dir) == Some(chain))
      ensures r.Some? ==>
        !failed && Loads(disk, g, dir) && r.value.0 == chain && r.value.1 == Slots(disk, chain)
        && ChainUpTo(g.kind, fat, r.value.2.cluster, g.fileLimit).Some?
      ensures r.Some? ==>
        k < |Records(Slots(disk, chain), g.kind)| && Records(Slots(disk, chain), g.kind)[k] == r.value.2
        && MayRemove(disk, g, chain, k, name)
      ensures r.None? && !failed && Loads(disk, g, dir) && Named(Records(Slots(disk, chain), g.kind), name) ==>
        k < |Records(Slots(disk, chain), g.kind)| && Matches(Records(Slots(disk, chain), g.kind)[k], name)
          && !Removable(disk, g, Records(Slots(disk, chain), g.kind)[k])
    {
      r, k := None, 0;
      var loaded := LoadDir(dir);
      if loaded.None? { return; }
      var rs := ReadRecords(loaded.value.1, g.kind);
      var found := Find(rs, name);
      if found.None? { return; }
      var record := rs[found.value];
      k := found.value;
      if record.attr % 2 == 1 { return; }
      var occupied := Occupied(record);
      if occupied { return; }
      var cs := FindChain(record.cluster, g.fileLimit);
      if cs.None? { return; }
      r := Some((loaded.value.0, loaded.value.1, record));
    }

    /** The bytes of a record, unless it is a directory, too large, or its chain is broken, short or too long. */
    method FileData(r: Record) returns (b: Option<seq<byte>>)
      requires Core()
      ensures b == if failed then None else ReadItem(g, ItemOf(disk, r, g.kind))
    {
      if failed || IsDir(r.attr) || r.size > MAX_FILE { return None; }
      var needed := ClustersFor(r.size);
      var chain := FindChain(r.cluster, g.fileLimit);
      ChainReadable(disk, g, r);
      if chain.None? { return None; }
      var cs := chain.value;
      ChainAreaWide(disk, g, r.cluster, cs);
      GatherLength(disk.area, cs, g.per);
      if |cs| < needed {
        PosMono(|cs|, needed - 1, g.per);
        return None;
      }
      EnoughClusters(disk.area, cs, needed, g.per, r.size);
      var slots := ReadAll(cs[..needed]);
      b := Some(Bytes(slots, r.size));
    }

    /** read_file: the contents of the first item the name means. */
    method Read(dir: Dir, name: Name) returns (b: Option<seq<byte>>)
      requires Core()
      ensures b == if failed then None else ReadAt(disk, g, dir, name)
    {
      var loaded := LoadDir(dir);
      if loaded.None? { return None; }
      var rs := ReadRecords(loaded.value.1, g.kind);
      var found := Find(rs, name);
      ghost var xs := ItemsAt(disk, g, dir);
      forall i | 0 <= i < |rs| ensures Means(xs[i], name) == Matches(rs[i], name) { }
      if found.None? {
        ReadingNone(g, xs, name);
        return None;
      }
      ReadingAt(g, xs, name, found.value);
      b := FileData(rs[found.value]);
    }

    /** A new chain of one cluster with the dot entries of a directory below `dir`. */
    method DotCluster(dir: Dir) returns (r: Option<nat>, ghost off: set<nat>)
      requires Valid() && !failed
      modifies this
      ensures Valid() && AllFreeClusters(old(disk.fat), off) && OffOnly(old(disk), disk, off)
        && TraceOff(old(trace), trace, old(disk), off)
      ensures r.Some? ==>
        !failed && off == Members([r.value]) && 2 <= r.value < |disk.fat| && disk.fat[r.value] != 0
        && Chain(g.kind, disk.fat, r.value) == Some([r.value])
        && disk.area[r.value]
          == DotSlots(r.value, if dir.FixedRoot? || dir.root then 0 else dir.cluster, g.per, g.kind)
      ensures r.None? && !failed ==> disk == old(disk) && Zeros(old(fat)) == {}
    {
      ghost var d, start := disk, trace;
      var a: Option<seq<nat>>;
      a, off := Allocate(1);
      if a.None? { return None, off; }
      var c := a.value[0];
      LinkedChain(g.kind, disk.fat, a.value);
      assert a.value == [c];
      var parent := if dir.FixedRoot? || dir.root then 0 else dir.cluster;
      var ok := WriteCluster(c, DotSlots(c, parent, g.per, g.kind), d, start, off);
      if !ok { return None, off; }
      r := Some(c);
    }

    /** A cluster with the dot entries of a new directory, which no entry names yet; nothing shows. */
    method StageDir(dir: Dir, ghost chain: seq<nat>, ghost foreign: set<nat>)
        returns (r: Option<nat>, ghost cs: seq<nat>, ghost own: set<nat>)
      requires Valid() && !failed && WellKept(disk, g, dir, chain, foreign)
      modifies this
      ensures Valid() && KeptOn(old(disk), disk, foreign)
      ensures TraceShow(old(trace), trace, g, dir, foreign, old(Items(disk, g, chain)))
      ensures r.Some? ==>
        !failed && WellKept(disk, g, dir, chain, foreign + own) && foreign !! own
        && SameListing(old(disk), disk, g, dir, chain, chain, foreign)
      ensures r.Some? ==>
        Chain(g.kind, disk.fat, r.value) == Some(cs) && |cs| == 1 && (forall i :: 0 <= i < |cs| ==> cs[i] in own)
        && Fits(r.value, 0, g.kind)
      ensures r.Some? ==>
        NewDir(Content(disk, r.value, g.kind), r.value, dir, g.kind) && FewerFree(old(disk.fat), disk.fat)
      ensures r.None? && !failed ==> disk == old(disk) && Zeros(old(fat)) == {}
      ensures r.Some? ==>
        own == Members(cs) && AllFreeClusters(old(disk.fat), own) && FatOnly(old(disk.fat), disk.fat, own)
    {
      ghost var d, start := disk, trace;
      cs := [];
      r, own := DotCluster(dir);
      FreeWrites(start, trace, d, disk, own, g, dir, chain, foreign);
      if r.None? { return; }
      cs := [r.value];
      Adopt(d, disk, g, dir, chain, foreign, own);
      TakenFewer(d, disk, own);
      DirStaged(disk, g, dir, chain, r.value);
    }

    /** Writes a directory's first cluster, then its entry. */
    method AddDir(dir: Dir, name: Name, ghost chain: seq<nat>, ghost foreign: set<nat>)
        returns (ok: bool, ghost ys: seq<Item>, ghost at: nat)
      requires Valid() && !failed && WellKept(disk, g, dir, chain, foreign) && Text(name) && 0xffff !in Units(name)
      modifies this
      ensures Valid()
      ensures Outcome(old(disk), old(trace), disk, trace, g, dir, chain, foreign, ys, ok, failed)
      ensures MaybeDir(old(Items(disk, g, chain)), ys, name, dir, g.kind)
        && (ok ==> AddedDir(old(Items(disk, g, chain)), ys, name, dir, g.kind) && DirMade(disk, g, dir, name))
      ensures !ok && !failed && old(Addable(disk, g, dir, chain, name)) ==>
        Zeros(old(fat)) == {} || CrowdedAt(old(trace), trace, at, g, dir)
      ensures ok ==> Spent(old(disk), disk, g, dir, name, 0x10, 0)
      ensures !ok && !failed ==> NoneLost(old(disk), disk, g, dir)
    {
      ghost var d, start, xs := disk, trace, Items(disk, g, chain);
      ok, ys, at := false, xs, 0;
      var c, cs, own := StageDir(dir, chain, foreign);
      if c.None? {
        StagedNot(d, start, disk, trace, g, dir, chain, foreign, failed);
        if !failed { StillThere(d, g, dir, chain, foreign); }
        return;
      }
      ghost var t, mid := disk, trace;
      ok, ys, at := PublishDir(dir, name, c.value, chain, foreign, own, cs);
      AddDone(d, start, t, mid, disk, trace, g, dir, chain, foreign, foreign + own, ys, ok, failed, name, at, DIRECTORY,
        0, c.value, cs);
    }

    /** Publishes an empty directory under a new name, or gives it up. */
    method PublishDir(dir: Dir, name: Name, c: nat, ghost chain: seq<nat>, ghost foreign: set<nat>,
        ghost own: set<nat>, ghost cs: seq<nat>) returns (ok: bool, ghost ys: seq<Item>, ghost at: nat)
      requires Valid() && !failed && WellKept(disk, g, dir, chain, foreign + own) && foreign !! own && Text(name)
        && 0xffff !in Units(name)
      requires Chain(g.kind, disk.fat, c) == Some(cs) && (forall i :: 0 <= i < |cs| ==> cs[i] in own)
        && |cs| <= g.fileLimit && Fits(c, 0, g.kind)
      requires NewDir(Content(disk, c, g.kind), c, dir, g.kind)
      modifies this
      ensures Valid()
      ensures Outcome(old(disk), old(trace), disk, trace, g, dir, chain, foreign, ys, ok, failed)
      ensures MaybeDir(old(Items(disk, g, chain)), ys, name, dir, g.kind)
        && (ok ==> AddedDir(old(Items(disk, g, chain)), ys, name, dir, g.kind) && DirMade(disk, g, dir, name))
      ensures !ok && !failed && old(Addable(disk, g, dir, chain, name)) ==> CrowdedAt(old(trace), trace, at, g, dir)
      ensures ok ==>
        Entered(disk, g, dir, name, DIRECTORY, c, 0) && KeptOn(old(disk), disk, foreign + own)
        && NoneLost(old(disk), disk, g, dir)
      ensures !ok && !failed ==> NoneLostBut(old(disk), disk, g, dir, cs) && Freed(disk.fat, cs)
    {
      ghost var d, xs, content := disk, Items(disk, g, chain), Content(disk, c, g.kind);
      ok, ys, at := Publish(dir, name, c, 0, DIRECTORY, chain, foreign, own, cs);
      DirAdded(xs, ys, name, content, c, dir, g.kind);
      if ok { DirIsMade(d, disk, g, dir, name, foreign + own, c, cs); }
    }

    /**
      mkdir: a new empty directory. In every state on the way the parent shows its old
      items, or those and the new one, or is half grown.
     */
    method Mkdir(dir: Dir, name: Name, ghost chain: seq<nat>, ghost foreign: set<nat>)
        returns (ok: bool, ghost ys: seq<Item>, ghost at: nat)
      requires Valid() && LoadsKept(disk, g, dir, chain, foreign) && Text(name) && 0xffff !in Units(name)
      modifies this
      ensures Valid()
      ensures old(Loads(disk, g, dir)) ==>
        Outcome(old(disk), old(trace), disk, trace, g, dir, chain, foreign, ys, ok, failed)
      ensures old(failed || !Addable(disk, g, dir, chain, name)) ==> !ok && disk == old(disk) && trace == old(trace)
      ensures MaybeDir(old(Items(disk, g, chain)), ys, name, dir, g.kind)
        && (ok ==> AddedDir(old(Items(disk, g, chain)), ys, name, dir, g.kind) && DirMade(disk, g, dir, name))
      ensures !ok && !failed && old(Addable(disk, g, dir, chain, name)) ==>
        Zeros(old(fat)) == {} || CrowdedAt(old(trace), trace, at, g, dir)
      ensures ok ==> Spent(old(disk), disk, g, dir, name, 0x10, 0)
      ensures !ok && !failed && old(Loads(disk, g, dir)) ==> NoneLost(old(disk), disk, g, dir)
    {
      ghost var d, start := disk, trace;
      ok, ys, at := false, Items(disk, g, chain), 0;
      var free := Vacant(dir, name);
      if !free {
        if Loads(disk, g, dir) { StagedNot(d, start, disk, trace, g, dir, chain, foreign, failed); }
        return;
      }
      ok, ys, at := AddDir(dir, name, chain, foreign);
    }

    // ------------------------------------------------------------ reading back

    /** A file created is read back, and every name that meant something reads as before. */
    method CreateThenRead(dir: Dir, name: Name, data: seq<byte>, ghost chain: seq<nat>, ghost foreign: set<nat>)
        returns (ok: bool, b: Option<seq<byte>>)
      requires Valid() && WellKept(disk, g, dir, chain, foreign) && Text(name) && 0xffff !in Units(name)
      modifies this
      ensures ok ==> b == Some(data)
      ensures ok ==> forall q :: old(Meant(Items(disk, g, chain), q)) ==>
        ReadAt(disk, g, dir, q) == old(ReadAt(disk, g, dir, q))
    {
      ghost var d, xs := disk, Items(disk, g, chain);
      ghost var ys, at;
      ok, ys, at := Create(dir, name, data, chain, foreign);
      b := Read(dir, name);
      if ok {
        AddedRead(g, xs, ys, name, data, name);
        forall q | Meant(xs, q)
          ensures ReadAt(disk, g, dir, q) == ReadAt(d, g, dir, q)
        {
          AddedRead(g, xs, ys, name, data, q);
        }
      }
    }

    /** What a successful overwrite leaves to read. */
    method OverwriteOnly(dir: Dir, name: Name, data: seq<byte>, ghost chain: seq<nat>, ghost foreign: set<nat>)
        returns (ok: bool, ghost ys: seq<Item>, ghost k: nat)
      requires Valid() && WellKept(disk, g, dir, chain, foreign) && Text(name) && 0xffff !in Units(name)
      modifies this
      ensures Valid()
      ensures ok ==> !failed && Shown(disk, g, dir, foreign, ys)
      ensures ok ==>
        AddedFile(g, old(Items(disk, g, chain)), ys, name, data)
        || (Replaced1(g, old(Items(disk, g, chain)), ys, k, data) && Means(old(Items(disk, g, chain))[k], name))
      ensures old(Meant(Items(disk, g, chain), name)) ==>
        MaybeReplaced(g, old(Items(disk, g, chain)), ys, k, name, data)
    {
      ghost var at;
      ok, ys, at, k := Overwrite(dir, name, data, chain, foreign);
    }

    /** A file overwritten is read back, and every name that does not mean it reads as before. */
    method OverwriteThenRead(dir: Dir, name: Name, data: seq<byte>, ghost chain: seq<nat>, ghost foreign: set<nat>)
        returns (ok: bool, b: Option<seq<byte>>, ghost k: nat)
      requires Valid() && WellKept(disk, g, dir, chain, foreign) && Text(name) && 0xffff !in Units(name)
      modifies this
      ensures ok ==> b == Some(data)
      ensures ok && old(Meant(Items(disk, g, chain), name)) ==>
        k < |old(Items(disk, g, chain))| && Means(old(Items(disk, g, chain))[k], name)
      ensures ok && old(Meant(Items(disk, g, chain), name)) ==> forall q :: !Means(old(Items(disk, g, chain))[k], q) ==>
        ReadAt(disk, g, dir, q) == old(ReadAt(disk, g, dir, q))
      ensures ok && !old(Meant(Items(disk, g, chain), name)) ==> forall q :: old(Meant(Items(disk, g, chain), q)) ==>
        ReadAt(disk, g, dir, q) == old(ReadAt(disk, g, dir, q))
    {
      ghost var d, xs := disk, Items(disk, g, chain);
      ghost var ys;
      KeptDistinct(d, g, dir, chain, foreign);
      ok, ys, k := OverwriteOnly(dir, name, data, chain, foreign);
      b := Read(dir, name);
      if ok { OverwrittenRead(d, disk, g, dir, chain, foreign, xs, ys, k, name, data); }
    }

    /** A file deleted is not found any more, and every name that did not mean it reads as before. */
    method DeleteThenRead(dir: Dir, name: Name, ghost chain: seq<nat>, ghost foreign: set<nat>)
        returns (ok: bool, b: Option<seq<byte>>, ghost k: nat)
      requires Valid() && WellKept(disk, g, dir, chain, foreign)
      modifies this
      ensures ok ==> b == None
      ensures ok ==> k < |old(Items(disk, g, chain))| && Means(old(Items(disk, g, chain))[k], name)
      ensures ok ==> forall q :: !Means(old(Items(disk, g, chain))[k], q) ==>
        ReadAt(disk, g, dir, q) == old(ReadAt(disk, g, dir, q))
    {
      ghost var d, xs := disk, Items(disk, g, chain);
      KeptDistinct(d, g, dir, chain, foreign);
      ok, k := Delete(dir, name, chain, foreign);
      b := Read(dir, name);
      if ok {
        WithoutRead(g, xs, k, name);
        forall q | !Means(xs[k], q)
          ensures ReadAt(disk, g, dir, q) == ReadAt(d, g, dir, q)
        {
          WithoutRead(g, xs, k, q);
        }
      }
    }

    // ------------------------------------------------------------ power cuts

    /**
      Power fails at any moment of a creation: a driver that mounts the disk reads every
      name that meant something as before, and the new file not at all or completely.
     */
    method CreateCut(dir: Dir, name: Name, data: seq<byte>, ghost chain: seq<nat>, ghost foreign: set<nat>)
        returns (ok: bool)
      requires Valid() && WellKept(disk, g, dir, chain, foreign) && Text(name) && 0xffff !in Units(name)
        && Breakable(g, disk.fat, dir, chain) == {}
      modifies this
      ensures CreateCuts(old(trace), trace, old(disk), g, dir, old(Items(disk, g, chain)), data)
    {
      ghost var d, start, xs := disk, trace, Items(disk, g, chain);
      KeptDistinct(d, g, dir, chain, foreign);
      ghost var ys, at;
      ok, ys, at := Create(dir, name, data, chain, foreign);
      NeverHalf(start, trace, g, dir, foreign, xs, ys);
      CutsCreate(start, trace, d, g, dir, foreign, xs, ys, name, data);
    }

    /**
      Power fails at any moment of overwriting a file: it reads as its old contents or as the new
      ones, and everything else as before.
     */
    method OverwriteCut(dir: Dir, name: Name, data: seq<byte>, ghost chain: seq<nat>, ghost foreign: set<nat>)
        returns (ok: bool)
      requires Valid() && WellKept(disk, g, dir, chain, foreign) && Text(name) && 0xffff !in Units(name)
        && Named(Records(Slots(disk, chain), g.kind), name)
      modifies this
      ensures ChangeCuts(old(trace), trace, old(disk), g, dir, old(Items(disk, g, chain)), name, Some(data))
    {
      ghost var d, start, xs := disk, trace, Items(disk, g, chain);
      KeptDistinct(d, g, dir, chain, foreign);
      ghost var ys, at, k;
      ok, ys, at, k := Overwrite(dir, name, data, chain, foreign);
      CutsReplace(start, trace, d, g, dir, foreign, xs, ys, k, name, data);
    }

    /**
      Power fails at any moment of a deletion: the file reads as before or not at all, and
      everything else as before.
     */
    method DeleteCut(dir: Dir, name: Name, ghost chain: seq<nat>, ghost foreign: set<nat>) returns (ok: bool)
      requires Valid() && WellKept(disk, g, dir, chain, foreign)
      modifies this
      ensures ChangeCuts(old(trace), trace, old(disk), g, dir, old(Items(disk, g, chain)), name, None)
    {
      ghost var d, start, xs := disk, trace, Items(disk, g, chain);
      KeptDistinct(d, g, dir, chain, foreign);
      ghost var k;
      ok, k := Delete(dir, name, chain, foreign);
      if |start| < |trace| { CutsDelete(start, trace, d, g, dir, foreign, xs, k, name); }
    }
  }
}
